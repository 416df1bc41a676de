/** The file system the storage core works on, held in memory, and the two file helpers
    of the repository: `createIfDoesNotExists` and `archiveFolder`. */
module FileHandling {
  import opened Exceptions
  import Base64

  /** What a file holds: plain text, or a plaintext encrypted under a raw key. The cipher
      itself (AES-256-CBC) is not modelled: a ciphertext is known only by its key and
      plaintext. */
  datatype Blob = Plain(text: string) | Enc(key: seq<Base64.byte>, plain: string)

  /** The fixed head of what a text read returns for a ciphertext. */
  const CiphertextMarker: string := "ciphertext:"

  /** What a text read returns for a ciphertext: a stand-in for its base 64 bytes that
      differs from key to key and, like base 64 text, is never empty and never contains
      `;` or a backslash. */
  function Text(b: Blob): string
  {
    match b
    case Plain(t) => t
    case Enc(key, _) => CiphertextMarker + Base64.Encode(key)
  }

  /** PHP's falsy strings: the empty string and "0". */
  predicate Falsy(s: string)
  {
    s == "" || s == "0"
  }

  /** The disk. `dirs` answers `file_exists` for directories; `failing` holds the paths
      on which every open, read and write fails. Neither changes while the core runs. */
  class FileSystem {
    var files: map<string, Blob>
    var archives: map<string, map<string, Blob>>
    const dirs: set<string>
    const failing: set<string>

    constructor (files0: map<string, Blob>, dirs0: set<string>, failing0: set<string>)
      ensures files == files0 && dirs == dirs0 && failing == failing0 && archives == map[]
    {
      files := files0;
      dirs := dirs0;
      failing := failing0;
      archives := map[];
    }
  }

  /** PHP `file_exists`: a file or a directory. */
  predicate Exists(files: map<string, Blob>, dirs: set<string>, path: string)
  {
    path in files || path in dirs
  }

  /** PHP `file_get_contents`: the file's text, or None (PHP's false) when the file is
      missing or cannot be read. */
  function ReadText(files: map<string, Blob>, failing: set<string>, path: string): (r: Option<string>)
    ensures r.Some? <==> path in files && path !in failing
    ensures r.Some? ==> r.value == Text(files[path])
  {
    if path in files && path !in failing then Some(Text(files[path])) else None
  }

  /** Reading after a write: the written path reads back the new contents unless it cannot
      be read, and every other path reads as before. */
  lemma {:induction false} ReadAfterWrite(files: map<string, Blob>, failing: set<string>, written: string,
                                          b: Blob, path: string)
    ensures ReadText(files[written := b], failing, path) ==
              if path != written then ReadText(files, failing, path)
              else if written in failing then None
              else Some(Text(b))
  {
  }

  /** The effect of `createIfDoesNotExists`: the new files and the outcome. */
  function Created(files: map<string, Blob>, dirs: set<string>, failing: set<string>, path: string)
    : (r: (map<string, Blob>, Outcome))
    // an existing file or directory is left as it is
    ensures Exists(files, dirs, path) ==> r == (files, Done)
    // a missing file is created empty, unless it cannot be opened
    ensures !Exists(files, dirs, path) && path !in failing ==> r == (files[path := Plain("")], Done)
    ensures !Exists(files, dirs, path) && path in failing ==> r == (files, Failed(FileManipulateException))
    // afterwards the path exists exactly when the call succeeded
    ensures r.1 == Done <==> Exists(r.0, dirs, path)
  {
    if Exists(files, dirs, path) then (files, Done)
    else if path in failing then (files, Failed(FileManipulateException))
    else (files[path := Plain("")], Done)
  }

  /** Creating twice is creating once. */
  lemma {:induction false} CreatedIdempotent(files: map<string, Blob>, dirs: set<string>, failing: set<string>, path: string)
    ensures var (once, o1) := Created(files, dirs, failing, path);
            var (twice, o2) := Created(once, dirs, failing, path);
            twice == once && o2 == o1
  {
  }

  /** PHP `createIfDoesNotExists`: make sure `path` exists, creating an empty file when it
      does not. */
  method CreateIfDoesNotExists(fs: FileSystem, path: string) returns (o: Outcome)
    modifies fs`files
    ensures (fs.files, o) == Created(old(fs.files), fs.dirs, fs.failing, path)
  {
    if !(path in fs.files || path in fs.dirs) {
      if path in fs.failing {
        return Failed(FileManipulateException);
      }
      fs.files := fs.files[path := Plain("")];
    }
    o := Done;
  }

  /** A calendar date and clock time, as PHP `date()` reads them. */
  datatype Timestamp = Timestamp(year: nat, month: nat, day: nat, hour: nat, minute: nat, second: nat)

  predicate ValidTimestamp(t: Timestamp)
  {
    t.year <= 9999 && 1 <= t.month <= 12 && 1 <= t.day <= 31 &&
    t.hour < 24 && t.minute < 60 && t.second < 60
  }

  function Pow10(k: nat): (p: nat)
    ensures p >= 1
  {
    if k == 0 then 1 else 10 * Pow10(k - 1)
  }

  predicate IsDigit(c: char)
  {
    '0' <= c <= '9'
  }

  predicate AllDigits(s: string)
  {
    forall i | 0 <= i < |s| :: IsDigit(s[i])
  }

  /** `n` in decimal, zero-padded (or cut) to its last `width` digits. */
  function Digits(n: nat, width: nat): (s: string)
    ensures |s| == width && AllDigits(s)
  {
    if width == 0 then ""
    else Digits(n / 10, width - 1) + [('0' as int + n % 10) as char]
  }

  /** The number a string of decimal digits denotes. */
  function Value(s: string): nat
    requires AllDigits(s)
  {
    if s == [] then 0 else Value(s[..|s| - 1]) * 10 + (s[|s| - 1] as int - '0' as int)
  }

  /** Padding a number that fits in `width` digits loses nothing. */
  lemma {:induction false} ValueOfDigits(n: nat, width: nat)
    requires n < Pow10(width)
    ensures Value(Digits(n, width)) == n
  {
    if width > 0 {
      var d := Digits(n, width);
      assert d[..|d| - 1] == Digits(n / 10, width - 1);
      assert n / 10 < Pow10(width - 1);
      ValueOfDigits(n / 10, width - 1);
    }
  }

  const ArchivePrefix: string := "database_backup_"
  const ArchiveSuffix: string := ".tar"

  /** `<Ymd>`: the year in four digits, month and day in two. */
  function DatePart(t: Timestamp): (s: string)
    ensures |s| == 8
  {
    Digits(t.year, 4) + Digits(t.month, 2) + Digits(t.day, 2)
  }

  /** `<His>`: hours, minutes and seconds in two digits each. */
  function TimePart(t: Timestamp): (s: string)
    ensures |s| == 6
  {
    Digits(t.hour, 2) + Digits(t.minute, 2) + Digits(t.second, 2)
  }

  /** `database_backup_<Ymd>_<His>.tar`. */
  function ArchiveName(t: Timestamp): (name: string)
    ensures |name| == 35
    ensures name[..16] == ArchivePrefix && name[31..] == ArchiveSuffix && name[24] == '_'
  {
    ArchivePrefix + (DatePart(t) + "_" + TimePart(t)) + ArchiveSuffix
  }

  /** The number written in `s`, when `s` is all digits. */
  function NumberIn(s: string): Option<nat>
  {
    if AllDigits(s) then Some(Value(s)) else None
  }

  /** Reads three numbers of widths `w0`, `w1` and the rest back out of `s`. */
  function ParseThree(s: string, w0: nat, w1: nat): Option<(nat, nat, nat)>
    requires w0 + w1 <= |s|
  {
    match (NumberIn(s[..w0]), NumberIn(s[w0..w0 + w1]), NumberIn(s[w0 + w1..]))
    case (Some(a), Some(b), Some(c)) => Some((a, b, c))
    case _ => None
  }

  /** Reads the time back out of an archive name. */
  function ParseArchiveName(name: string): Option<Timestamp>
  {
    if |name| == 35 && name[..16] == ArchivePrefix && name[31..] == ArchiveSuffix && name[24] == '_' then
      var stamp := name[16..31];
      match (ParseThree(stamp[..8], 4, 2), ParseThree(stamp[9..], 2, 2))
      case (Some((y, mo, d)), Some((h, mi, sec))) => Some(Timestamp(y, mo, d, h, mi, sec))
      case _ => None
    else None
  }

  lemma {:induction false} ParseThreeOf(a: nat, b: nat, c: nat, w0: nat, w1: nat, w2: nat)
    requires a < Pow10(w0) && b < Pow10(w1) && c < Pow10(w2)
    ensures ParseThree(Digits(a, w0) + Digits(b, w1) + Digits(c, w2), w0, w1) == Some((a, b, c))
  {
    var s := Digits(a, w0) + Digits(b, w1) + Digits(c, w2);
    assert s[..w0] == Digits(a, w0) && s[w0..w0 + w1] == Digits(b, w1) && s[w0 + w1..] == Digits(c, w2);
    ValueOfDigits(a, w0);
    ValueOfDigits(b, w1);
    ValueOfDigits(c, w2);
  }

  /** Every valid time gives an archive name from which it can be read back, so two
      backups taken at different seconds never share a name. */
  lemma {:induction false} ArchiveNameRoundTrip(t: Timestamp)
    requires ValidTimestamp(t)
    ensures ParseArchiveName(ArchiveName(t)) == Some(t)
  {
    var name := ArchiveName(t);
    var stamp := DatePart(t) + "_" + TimePart(t);
    assert name[16..31] == stamp;
    assert stamp[..8] == DatePart(t) && stamp[9..] == TimePart(t);
    assert Pow10(2) == 100 && Pow10(4) == 10000;
    ParseThreeOf(t.year, t.month, t.day, 4, 2, 2);
    ParseThreeOf(t.hour, t.minute, t.second, 2, 2, 2);
  }

  /** A path inside `folder`. */
  predicate Under(path: string, folder: string)
  {
    |folder| <= |path| && path[..|folder|] == folder
  }

  /** Some file is stored under `folder`. */
  predicate HasFiles(files: map<string, Blob>, folder: string)
  {
    exists p | p in files :: Under(p, folder)
  }

  /** The files stored under `folder`, as an archive of it holds them. */
  function Snapshot(files: map<string, Blob>, folder: string): (m: map<string, Blob>)
    ensures forall p :: p in m <==> p in files && Under(p, folder)
    ensures forall p | p in m :: m[p] == files[p]
  {
    map p | p in files && Under(p, folder) :: files[p]
  }

  /** An archive of `folder` sees a write inside the folder and nothing written outside it. */
  lemma {:induction false} SnapshotOfWrite(files: map<string, Blob>, folder: string, written: string, b: Blob)
    ensures Snapshot(files[written := b], folder) ==
              if Under(written, folder) then Snapshot(files, folder)[written := b] else Snapshot(files, folder)
  {
  }

  /** PHP `archiveFolder`: a tar archive of `folderToSave`, named after the current time,
      inside `whereToSave`. `builds` says whether the archive library succeeds. */
  method ArchiveFolder(fs: FileSystem, folderToSave: string, whereToSave: string, now: Timestamp, builds: bool)
    returns (o: Outcome)
    modifies fs`archives
    // both folders are checked before anything is written
    ensures !Exists(fs.files, fs.dirs, whereToSave) || !Exists(fs.files, fs.dirs, folderToSave) ==>
              o == Failed(FileManipulateException) && fs.archives == old(fs.archives)
    ensures Exists(fs.files, fs.dirs, whereToSave) && Exists(fs.files, fs.dirs, folderToSave) ==>
              // building fails when the library fails or finds no file to add
              (o == Done <==> builds && HasFiles(fs.files, folderToSave)) &&
              (o == Done ==> fs.archives == old(fs.archives)[whereToSave + ArchiveName(now) := Snapshot(fs.files, folderToSave)]) &&
              (o != Done ==> o == Failed(FileManipulateException) && fs.archives == old(fs.archives))
  {
    if !(whereToSave in fs.files || whereToSave in fs.dirs) || !(folderToSave in fs.files || folderToSave in fs.dirs) {
      return Failed(FileManipulateException);
    }
    var archiveFilename := ArchiveName(now);
    var added := Snapshot(fs.files, folderToSave);
    assert added != map[] <==> HasFiles(fs.files, folderToSave) by {
      if HasFiles(fs.files, folderToSave) {
        var p :| p in fs.files && Under(p, folderToSave);
        assert p in added;
      }
    }
    if !builds || added == map[] {
      return Failed(FileManipulateException);
    }
    fs.archives := fs.archives[whereToSave + archiveFilename := added];
    o := Done;
  }
}
