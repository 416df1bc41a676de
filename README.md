# noSQLDatSys storage core in Dafny

This project models the storage core of noSQLDatSys, a file-backed PHP database. The core has three parts:

- **The connection ledger** (`Database`). A connection checks that its database exists and normalises its access mode. It draws a connection id that is not yet in the global list `database/connectionsList.bin` and appends its record `id;mode;database` to that list. When it ends, it removes the record again.
- **The per-database access queue** (`Database`). A connection appends `id;mode;table` to its database's `activeConnectionList.bin`. It then asks whether it is blocked: the queue is scanned in file order and the first record that speaks to the caller decides. A rotation announcement `000000;wr;ALL_TABLES` at the head of a queue makes the caller run the key rotation.
- **The key-rotation state machine** (`Cyphering`). The stored key is kept in base 64 with the day of its last change and two flags. When the key is 30 days old, a decryption asks for a rotation and announces it in every queue. `reCypher` then archives the database tree, re-encrypts every table under a fresh key and commits the key and the date.

It also models the two file helpers of `FileHandling`, which both classes use: `createIfDoesNotExists` and `archiveFolder`.

The disk is an in-memory `FileSystem` object. It maps each path to a `Blob`, which is either plain text or `Enc(key, plaintext)`. A set of directories answers `file_exists`. A set of failing paths stands for files that cannot be opened, read or written. Archives are stored as snapshots of the files under a folder. The record terminator is PHP's single-quoted `'\n'`, which is the two characters backslash and `n`, and the model uses exactly that.

Modules, in dependency order:

- `Exceptions`: the error kinds and result types.
- `RecordFormat`: `explode`/`implode` and the record text format.
- `Base64`: RFC 4648, section 4.
- `FileHandling`: the file store and the two helpers.
- `DatabaseStatic`: the constants, the paths and `announceReCyphering`. It is split out because `Cyphering` and `Database` call each other.
- `AccessQueue`: the blocking decision and the withdrawal of announcements.
- `Registry`: the global list, its id check and its removal.
- `KeyRotation`: the class `Cyphering`.
- `Connections`: the class `Database`.

Points of the source's behaviour that the model keeps as they are:

- The rotation draws the new key before it archives the databases (assets/phpClasses/Cyphering.php:118-121).
- The key age is the absolute number of days between the last change and today (assets/phpClasses/Cyphering.php:72).
- A database exists when its directory exists. The fixed list of databases is not consulted (assets/phpClasses/Database.php:180-185).
- An exception during re-encryption leaves the in-progress flag set. Only the archive step's FileManipulateException is caught (assets/phpClasses/Cyphering.php:120-146).
- Nothing removes a connection's entry from an access queue, because the source has no operation that does.

## Model

| member | source | states |
|---|---|---|
| RecordFormat.ImplodeExplode | assets/phpClasses/Database.php:235 | joining the pieces of `explode` with the same delimiter gives back any text |
| RecordFormat.FieldsOfLine | assets/phpClasses/Database.php:20-21 | a record whose fields hold neither `;` nor a backslash splits back into its three fields |
| RecordFormat.LineInjective | assets/phpClasses/Database.php:27-28 | two clean records with the same line are the same record |
| RecordFormat.LinesOfSerialize | assets/phpClasses/Database.php:235 | splitting a file of clean records on the literal terminator gives their lines plus one trailing empty piece |
| RecordFormat.SerializeOfLines | assets/phpClasses/Database.php:235 | joining those lines with the terminator gives the file back |
| RecordFormat.SerializeAppend | assets/phpClasses/Database.php:259 | appending one entry to a file of records is the file of the records plus that one |
| RecordFormat.FieldsAtOfLine | assets/phpClasses/Database.php:238-246 | indexing the split line of a clean record gives its id at 0, its mode at 1, its name at 2 and PHP's null at 3 |
| Base64.DecodeEncode | assets/phpClasses/Cyphering.php:85-104 | decoding the base 64 text of any byte string gives back those bytes |
| Base64.Encode | assets/phpClasses/Cyphering.php:99 | the base 64 text has a length that is a multiple of 4 and is empty exactly for no bytes |
| FileHandling.ReadAfterWrite | assets/phpClasses/Database.php:231-233 | `file_get_contents` after a write gives the written text, or false when the file cannot be read, and reads every other path as before |
| FileHandling.Created | assets/phpClasses/FileHandling.php:7-13 | an existing file or directory is left as it is; a missing one is created empty unless it cannot be opened (FileManipulateException); afterwards the path exists exactly when the call succeeded |
| FileHandling.CreatedIdempotent | assets/phpClasses/FileHandling.php:7-13 | creating twice has the same files and outcome as creating once |
| FileHandling.CreateIfDoesNotExists | assets/phpClasses/FileHandling.php:7-13 | the new files and the outcome are those of `Created` |
| FileHandling.ArchiveName | assets/phpClasses/FileHandling.php:19 | the name is 35 characters: `database_backup_`, eight date digits, `_`, six time digits, `.tar` |
| FileHandling.ArchiveNameRoundTrip | assets/phpClasses/FileHandling.php:19 | the time can be read back out of the archive name, so backups taken at different seconds never share a name |
| FileHandling.SnapshotOfWrite | assets/phpClasses/FileHandling.php:21-23 | an archive of a folder sees a write inside the folder and is unchanged by a write outside it |
| FileHandling.ArchiveFolder | assets/phpClasses/FileHandling.php:14-24 | a missing source or destination fails before anything is written; otherwise success exactly when the library builds and finds a file, storing the snapshot under the timed name; a failed build stands for a falsy `buildFromDirectory` result, and every failure is FileManipulateException |
| DatabaseStatic.QueuePathsCoincide | assets/phpClasses/Database.php:187-188 | the connection's double-slash queue path and the single-slash one of line 269 name the same file once runs of slashes are collapsed |
| DatabaseStatic.QueuePathsDiffer | assets/phpClasses/Database.php:269 | different databases have different queue files |
| DatabaseStatic.AnnouncedTo | assets/phpClasses/Database.php:269-279 | success exactly when the queue exists, is readable and holds non-falsy text, which then gets the announcement in front; otherwise at most an empty queue was created |
| DatabaseStatic.AnnouncePrepends | assets/phpClasses/Database.php:265-281 | after a successful announcement every listed queue is the announcement followed by its old, unchanged content, and no other file changes |
| DatabaseStatic.AnnounceKeepsPaths | assets/phpClasses/Database.php:265-281 | a complete announcement adds and removes no file |
| DatabaseStatic.AnnounceLeavesOthers | assets/phpClasses/Database.php:265-281 | a complete announcement leaves every file that is no listed queue as it was |
| DatabaseStatic.AnnounceReaches | assets/phpClasses/Database.php:268-279 | after a complete announcement each listed queue existed, held non-falsy text, and now has the announcement in front of that text |
| DatabaseStatic.AnnounceNeedsNonEmptyQueues | assets/phpClasses/Database.php:273-275 | a missing or empty queue in any listed database makes the announcement fail |
| DatabaseStatic.QueuePathNotTouched | assets/phpClasses/Database.php:268-280 | announcing to one database leaves every other database's queue as it was |
| DatabaseStatic.AnnounceReCyphering | assets/phpClasses/Database.php:265-281 | the loop's files and outcome are those of announcing to each listed database in order, stopping at the first failure |
| AccessQueue.BlocksIffConflictFirst | assets/phpClasses/Database.php:243-247 | the scan reports blocked exactly when another connection's record for the table comes before any record of the caller or for the table |
| AccessQueue.ScanOfRecords | assets/phpClasses/Database.php:243-250 | on a well-formed queue the raw scan over exploded text equals the scan over its records |
| AccessQueue.VerdictOfRecords | assets/phpClasses/Database.php:237-250 | the verdict on a queue of clean records: the announcement at the head means rotate, otherwise blocked exactly when the record scan says so |
| AccessQueue.AnnouncementBlocksEveryone | assets/phpClasses/Database.php:238-241 | whatever follows, a queue headed by the announcement sends every caller, for every table, to rotate and wait |
| AccessQueue.EarlierClaimBlocks | assets/phpClasses/Database.php:245-246 | a caller whose first record comes after another connection's record for the same table is blocked |
| AccessQueue.OwnClaimFirstProceeds | assets/phpClasses/Database.php:245 | a caller whose record comes before every other record for its table proceeds, whatever follows |
| AccessQueue.FirstComeFirstServed | assets/phpClasses/Database.php:243-250 | of two connections queued for one table, the second waits while the first's record is present and proceeds once it is gone |
| AccessQueue.StripAnnouncementsOfRecords | assets/phpClasses/Database.php:238-241 | withdrawing the leading announcements from a queue of announcements followed by records leaves exactly those records |
| AccessQueue.WithdrawnQueueIsNotPending | assets/phpClasses/Database.php:237-250 | after the withdrawal a queue gives the verdict of its connection records, never a pending rotation |
| AccessQueue.Withdrawn | assets/phpClasses/Cyphering.php:144-146 | the withdrawal adds and removes no file and leaves every ciphertext unchanged |
| AccessQueue.WithdrawnQueue | assets/phpClasses/Cyphering.php:144-146 | a readable plain queue of a listed database ends up as its old text without the leading announcements |
| AccessQueue.WithdrawAnnouncements | assets/phpClasses/Cyphering.php:144-146 | the loop's new files are the withdrawal over the listed databases |
| Registry.IdString | assets/phpClasses/Database.php:134-138 | a drawn id is stored as non-empty decimal digits with no leading zero |
| Registry.IdStringValue | assets/phpClasses/Database.php:134-138 | the stored id reads back as the number drawn |
| Registry.DrawnIdIsNeverReserved | assets/phpClasses/Database.php:134 | an id drawn from 1 upward is a clean field and never the reserved rotation id `000000` |
| Registry.ConnectionExistsOfRecords | assets/phpClasses/Database.php:153-157 | on a list of clean records the documented check is true exactly when some record carries the id |
| Registry.RegisteringKeepsIdsUnique | assets/phpClasses/Database.php:133-150 | appending a record whose id the check reports free keeps the ids distinct, and the old list is a prefix of the new one |
| Registry.IdCheckAsWrittenMissesTakenIds | assets/phpClasses/Database.php:158-174 | as written, the check reports a taken id as free on every non-empty list |
| Registry.IdCheckAsWrittenSpinsOnEmptyList | assets/phpClasses/Database.php:163 | as written, the check never returns on an empty list |
| Registry.StrReplaceCutsLongerIds | assets/phpClasses/Database.php:122 | as written, closing connection 12 cuts `12;r;main\n` out of the record of connection 312, while the corrected removal keeps that record |
| Registry.Without | assets/phpClasses/Database.php:122 | the records kept are exactly those of the list that differ from the connection's own |
| Registry.KeepOthersOfLines | assets/phpClasses/Database.php:122 | keeping the lines that differ from the connection's own line, on a list of clean records, gives the lines of the records without it |
| Registry.RemoveRecordOfRecords | assets/phpClasses/Database.php:117-125 | the corrected removal on a list of clean records drops exactly the connection's own record and keeps every other record in order |
| Registry.ClosingLastConnectionEmptiesList | assets/phpClasses/Database.php:124 | closing the only connection leaves an empty list, which the destructor then reports as a failed write |
| Registry.CloseUndoesRegister | assets/phpClasses/Database.php:117-150 | registering a record the list did not hold and then closing it gives back the list as it was |
| Registry.FreeIdIsNotListed | assets/phpClasses/Database.php:133-136 | a record whose id the check reports free is not already in the list |
| Registry.FirstFreeId | assets/phpClasses/Database.php:133-136 | the id settled on is a draw that is free, and every earlier draw was taken |
| Registry.FirstFreeIdAt | assets/phpClasses/Database.php:133-136 | the first free draw is the one settled on |
| KeyRotation.KeyDecoded | assets/phpClasses/Cyphering.php:85-91 | `getKey` gives the non-falsy bytes the stored key decodes to, and every failure is ParseError |
| KeyRotation.KeyRoundTrip | assets/phpClasses/Cyphering.php:85-104 | `setKey` fails only on the empty key, and `getKey` afterwards gives the key back, except the single byte "0", which PHP treats as false |
| KeyRotation.FirstStrongKey | assets/phpClasses/Cyphering.php:61-70 | the key is the bytes of the first draw that is strong and non-falsy, and no earlier draw was |
| KeyRotation.FirstStrongKeyAt | assets/phpClasses/Cyphering.php:61-70 | the first acceptable draw is the one picked |
| KeyRotation.GenerateKey | assets/phpClasses/Cyphering.php:61-70 | the do-while loop returns the first strong non-falsy draw, of the requested length |
| KeyRotation.Decrypt | assets/phpClasses/Cyphering.php:35-37 | decryption succeeds exactly on a ciphertext under this very key with a non-falsy plaintext, and then gives that plaintext; otherwise CypherFailedException |
| KeyRotation.Opened | assets/phpClasses/Cyphering.php:18-40 | a missing file is CypherInvalidPathException, an unreadable or falsy one DatabaseAccessException; success exactly when the stored key decodes and the file is a non-falsy ciphertext under it, giving its plaintext |
| KeyRotation.CypheredWith | assets/phpClasses/Cyphering.php:51-60 | encrypting with a given key succeeds exactly on an existing writable file, which then holds the data under that key; a failure changes nothing |
| KeyRotation.CypherThenDecypher | assets/phpClasses/Cyphering.php:25-50 | with the key unchanged, decrypting what was just encrypted gives the data back, except falsy data, which is CypherFailedException |
| KeyRotation.KeptNamesAsWritten | assets/phpClasses/Cyphering.php:133 | as written, the rotation visits every directory entry but `.` and `..` |
| KeyRotation.KeptNames | assets/phpClasses/Cyphering.php:133 | the corrected rotation also leaves out the access queue |
| KeyRotation.TargetPaths | assets/phpClasses/Cyphering.php:136 | each visited path is the database directory followed by the entry name |
| KeyRotation.QueueIsAnEntry | assets/phpClasses/Cyphering.php:136 | the access queue is an entry of its own database's directory |
| KeyRotation.ReEncryptAllRotates | assets/phpClasses/Cyphering.php:135-141 | re-encrypting distinct paths succeeds exactly when each is a readable ciphertext under the stored key; then each holds its plaintext under the new key and every other file is unchanged |
| KeyRotation.PlainFileStopsReEncryption | assets/phpClasses/Cyphering.php:138 | a plain-text file among the targets makes the re-encryption fail |
| KeyRotation.RotationAsWrittenFailsOnQueue | assets/phpClasses/Cyphering.php:133-140 | as written, the rotation decrypts the plain-text queue and throws in every database whose queue exists |
| KeyRotation.RotationSparesQueue | assets/phpClasses/Cyphering.php:133-140 | with the queue left out, no target of a database is its queue |
| KeyRotation.ReEncryptAllAppend | assets/phpClasses/Cyphering.php:128-142 | re-encrypting two lists of paths one after the other is re-encrypting the joined list, stopping at the first failure |
| KeyRotation.RotateFromIsReEncryptAll | assets/phpClasses/Cyphering.php:128-142 | when every directory is listed, the nested loops are one re-encryption of all tables of all databases in order; an unlisted directory is FileManipulateException |
| KeyRotation.AllTargetsDistinct | assets/phpClasses/Cyphering.php:128-142 | the tables of the two databases are distinct paths |
| KeyRotation.RotationOfAllDatabases | assets/phpClasses/Cyphering.php:128-142 | the rotation succeeds exactly when every directory is listed and every table is a readable ciphertext under the stored key; then each table holds its plaintext under the new key and no other file changes |
| KeyRotation.QueuesAreNotTargets | assets/phpClasses/Cyphering.php:133-140 | no rotation target is an access queue |
| KeyRotation.AnnouncementOutlivesRotation | assets/phpClasses/Cyphering.php:144-146 | with the queue left out but without a withdrawal, after a complete rotation each queue still starts with the announcement, so every caller is told to rotate and wait |
| KeyRotation.RotationReleasesQueues | assets/phpClasses/Cyphering.php:144-146 | with the withdrawal, after a complete rotation a queue gives the verdict of its connection records alone |
| KeyRotation.Cyphering.constructor | assets/phpClasses/Cyphering.php:13-16 | a process starts with whatever key and date it is given, the compiled-in values being parameters, and with neither flag set |
| KeyRotation.Cyphering.CheckValidnessOfKey | assets/phpClasses/Cyphering.php:71-79 | a key younger than 30 days changes nothing; an older one sets the waiting flag and announces to every database |
| KeyRotation.Cyphering.Decypher | assets/phpClasses/Cyphering.php:25-40 | the key-age check runs only on a readable file and only while no rotation is in progress; its failed announcement is the result; otherwise the result is that of `Opened` |
| KeyRotation.Cyphering.Cypher | assets/phpClasses/Cyphering.php:41-50 | the new files and the outcome are those of encrypting under the stored key |
| KeyRotation.Cyphering.CypherWithDifferentKey | assets/phpClasses/Cyphering.php:51-60 | the new files and the outcome are those of encrypting under the given key |
| KeyRotation.Cyphering.SetKey | assets/phpClasses/Cyphering.php:98-104 | the empty key is ParseError with the key kept; any other key is stored in base 64 and reads back unchanged |
| KeyRotation.Cyphering.ReEncryptDatabase | assets/phpClasses/Cyphering.php:135-141 | the inner loop's files and outcome are those of re-encrypting the database's visited paths |
| KeyRotation.Cyphering.RotateDatabases | assets/phpClasses/Cyphering.php:128-142 | the outer loop's files and outcome are those of the whole rotation |
| KeyRotation.Cyphering.RotateAndCommit | assets/phpClasses/Cyphering.php:128-146 | after an exception the rotated files stay, the flag stays set and the key and date are kept; after success the queues are withdrawn, the flag is cleared and the new key and today's date are committed |
| KeyRotation.ReCypherOutcomes | assets/phpClasses/Cyphering.php:112-147 | without a request nothing changes; a request is always consumed; a failed archive halts with the flag cleared and every file, archive, key and date kept; after the backup, an exception keeps the key and date with the flag set, and success ends the rotation, dates it today, stores a key that decodes to the new one and, when the stored key decodes, leaves every table it visited holding its plaintext under the new key |
| KeyRotation.RotationCoversEveryTable | assets/phpClasses/Cyphering.php:128-142 | when each listing names every file directly under its directory, a complete rotation leaves every file of a database directory other than `.`, `..` and the queue holding its plaintext under the new key |
| KeyRotation.ListedTableIsTarget | assets/phpClasses/Cyphering.php:128-136 | every listed entry of a database directory other than `.`, `..` and the queue is one of the rotation's targets |
| KeyRotation.Cyphering.ReCypher | assets/phpClasses/Cyphering.php:112-147 | the new files, archives, key, date, flags and outcome are those of `ReCypherEffect` on the old ones |
| KeyRotation.Cyphering.StartReCyphering | assets/phpClasses/Cyphering.php:114-146 | once a rotation is asked for, the new files, archives, key, date, flags and outcome are those of `ReCypherEffect` on the old ones |
| Connections.ConnectionMode | assets/phpClasses/Database.php:195-208 | `w` and `wr` are kept and every other mode, null included, becomes `r` |
| Connections.ConnectionModeIdempotent | assets/phpClasses/Database.php:195-208 | normalising twice is normalising once, and the mode is always one of the three |
| Connections.CheckIfConnectionExists | assets/phpClasses/Database.php:153-161 | whether the drawn id is taken in the list, or DatabaseAccessException when the list cannot be opened |
| Connections.Database.constructor | assets/phpClasses/Database.php:138-142 | the connection keeps its id, its mode and its database, its record text is `id;mode;database` followed by the terminator, and its paths are those of lines 187-188 |
| Connections.Database.DrawFreeId | assets/phpClasses/Database.php:133-136 | the do-while loop settles on the first draw that the check reports free, in [1, 999999] |
| Connections.Database.Open | assets/phpClasses/Database.php:106-151 | an unknown database fails before the list is touched; otherwise a list that cannot be created or opened fails; otherwise the connection gets the first free id and its record is appended to the unchanged old list |
| Connections.Database.Close | assets/phpClasses/Database.php:117-125 | a missing or falsy list is DatabaseAccessException; otherwise the list loses the connection's record, and an empty result is reported as DatabaseAccessException after the write |
| Connections.Database.WriteYourselfToQuery | assets/phpClasses/Database.php:252-264 | the queue is created if needed and gets `id;mode;table` and the terminator appended, earlier entries unchanged; an unopenable queue is DatabaseAccessException |
| Connections.Database.CheckIfUsed | assets/phpClasses/Database.php:230-251 | a queue that cannot be created is the error with nothing changed; otherwise the answer is the queue verdict, blocked or free, with the key state unchanged; a pending rotation leaves the files, archives and key state that `reCypher` leaves from the files after the queue's creation, and answers blocked unless the rotation failed, whose error is then the result |

## Left out

- PHP statics live for one process, so a new key and date reach no other process. The model keeps them in one `Cyphering` object and does not model several processes.
- Concurrency: several processes racing on the list and the queue files are not modelled. Every operation is one sequential step.
- The `usleep` polling loop and the rest of `selectQuery` (lines 219-229) are not modelled; the query itself is unfinished in the source.
- AES-256-CBC, its IV and PHP's cutting of the key to 32 bytes are not modelled. A ciphertext is `Enc(key, plaintext)`, and a text read of it gives a marker followed by the key's base 64 text.
- `openssl_encrypt` never fails in the model, because a blob can always be built. The branch that throws CypherFailedException after encryption is therefore not reachable.
- PHP's lenient `base64_decode` is modelled as the strict RFC 4648 decoder; text that only PHP's lenient decoder accepts is out of scope.
- PHP's loose `==` between numeric strings (lines 165, 238 and 245) is modelled as exact string equality.
- Dates are whole day numbers, and the clock is a parameter. Parsing `"31-03-2025"` and `date()` are not modelled.
- `mt_rand`, `openssl_random_pseudo_bytes` and `scandir` are sequences of answers given as parameters.
- Connections.Database.DrawFreeId: requires a free id among the draws, because the source loops for ever when every id is taken.
- KeyRotation.GenerateKey: requires a strong draw among the draws, because the source loops for ever otherwise.
- Connections.Database.Open: appending to the list after the id loop always succeeds, because the list was just opened for reading; a failing `fopen(..., "ab")` after a successful read is not modelled.
- Connections.Database.Close: the write after a successful read always succeeds.
- The error and exception handlers (`setHandling`, `errorHandle`, `exceptionHandle`), `ErrorHandling::notifyException` and `__toString` are stubs or logging and are not modelled; `die()` is the outcome ProcessHalted.
- KeyRotation.Cyphering.ReCypher: the `scandir` listings are parameters and are not tied to the files. KeyRotation.RotationCoversEveryTable states what a complete rotation reaches when each listing names the files of its directory.
- FileHandling.ArchiveFolder: exceptions that `PharData` and `buildFromDirectory` throw themselves are not modelled. In the source they escape the catch of assets/phpClasses/Cyphering.php:122 and leave the in-progress flag set; the model has only a falsy build result.
- KeyRotation.Cyphering.ReCypher: models the corrected rotation of the Findings table. It leaves the access queue out of the re-encryption, and it withdraws the announcements once every table is re-encrypted.
- Connections.Database.Close: removes whole records equal to the connection's own, the corrected behaviour of the Findings table, not `str_replace`'s substring cut.
- Connections.Database.Open: uses the documented id check, the corrected behaviour of the Findings table, not the inverted loop.

## Findings

| source | as written | input that shows it | evidently intended | confidence | as-written member | corrected member |
|---|---|---|---|---|---|---|
| assets/phpClasses/Database.php:163 | the loop over the list runs only while `fgets` returns a falsy line, and `fgets` reads up to a real line break the list never holds | a list holding `12;r;main\n` and the drawn id 12: the id is reported free; an empty list: the check never returns | report whether some record of the list carries the id, as the doc comment says | not executed | Registry.IdCheckAsWrittenMissesTakenIds | Registry.ConnectionExistsOfRecords |
| assets/phpClasses/Database.php:122 | `str_replace` cuts every occurrence of the record text, also inside a longer record | list `312;r;main\n`, closing connection 12 with record `12;r;main\n`: the list becomes `3` | remove only the connection's own whole record | not executed | Registry.StrReplaceCutsLongerIds | Registry.RemoveRecordOfRecords |
| assets/phpClasses/Cyphering.php:133-140 | `array_diff` keeps `activeConnectionList.bin`, which is then decrypted like a table | any database whose directory holds its plain-text queue: `decypher` throws CypherFailedException, the rotation never completes and the in-progress flag stays set | re-encrypt only the tables and leave the queue out | not executed | KeyRotation.RotationAsWrittenFailsOnQueue | KeyRotation.RotationSparesQueue |
| assets/phpClasses/Cyphering.php:144-146 | nothing removes the announcement `000000;wr;ALL_TABLES\n` once the rotation is done | any queue after a complete rotation: every later `checkIfUsed` reports blocked, for ever | withdraw the announcements once every table is re-encrypted | not executed | KeyRotation.AnnouncementOutlivesRotation | KeyRotation.RotationReleasesQueues |
