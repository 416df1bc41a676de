/** The key-rotation state machine of `Cyphering`: the stored key and its age, the table
    cipher, and `reCypher`, which re-encrypts every table of every database under a fresh
    key once a rotation has been announced. */
module KeyRotation {
  import opened Exceptions
  import opened FileHandling
  import opened DatabaseStatic
  import opened AccessQueue
  import opened RecordFormat
  import Base64

  type byte = Base64.byte

  /** Bytes asked of the random source for a new key. */
  const EncryptKeyLength: nat := 512
  /** Age, in days, at which the key is due for rotation. */
  const EncryptKeyRegenerateDelay: nat := 30

  /** PHP's falsy strings, as bytes: empty, or the single character "0". */
  predicate FalsyBytes(bs: seq<byte>)
  {
    bs == [] || bs == [48]
  }

  // ---- Key age -------------------------------------------------------------------------

  /** `checkValidnessOfKey`'s test: the key was changed at least the rotation delay ago,
      counting days in either direction. Days are whole day numbers. */
  predicate KeyDue(lastChange: int, today: int)
  {
    (if today >= lastChange then today - lastChange else lastChange - today) >= EncryptKeyRegenerateDelay
  }

  // ---- Key storage: `getKey` and `setKey` ------------------------------------------------

  /** `getKey`: the stored text decoded from base 64; undecodable or falsy bytes are a
      ParseError. */
  function KeyDecoded(encoded: string): (r: Result<seq<byte>>)
    ensures r.Ok? ==> !FalsyBytes(r.value) && Base64.Decode(encoded) == Some(r.value)
    ensures r.Err? ==> r.error == ParseError
  {
    match Base64.Decode(encoded)
    case None => Err(ParseError)
    case Some(bs) => if FalsyBytes(bs) then Err(ParseError) else Ok(bs)
  }

  /** `setKey`'s encoding: base 64, and a ParseError when the encoding is falsy. */
  function KeyEncoded(key: seq<byte>): (r: Result<string>)
  {
    var e := Base64.Encode(key);
    if FileHandling.Falsy(e) then Err(ParseError) else Ok(e)
  }

  /** Storing a key and reading it back gives the key, for every key `getKey` accepts;
      only the empty key cannot be stored. */
  lemma {:induction false} KeyRoundTrip(key: seq<byte>)
    ensures KeyEncoded(key).Ok? <==> key != []
    ensures KeyEncoded(key).Ok? ==>
              KeyDecoded(KeyEncoded(key).value) == if key == [48] then Err(ParseError) else Ok(key)
  {
    Base64.DecodeEncode(key);
  }

  // ---- Random source: `generateKey` ------------------------------------------------------

  /** One answer of `openssl_random_pseudo_bytes`: the bytes (None for false) and whether
      the source called them strong. */
  datatype Draw = Draw(bytes: Option<seq<byte>>, strong: bool)

  /** A draw that ends `generateKey`'s loop: non-falsy bytes reported strong. */
  predicate Acceptable(d: Draw)
  {
    d.bytes.Some? && !FalsyBytes(d.bytes.value) && d.strong
  }

  /** The key `generateKey` settles on: the bytes of the first acceptable draw. */
  function FirstStrongKey(draws: seq<Draw>): (key: seq<byte>)
    requires exists i | 0 <= i < |draws| :: Acceptable(draws[i])
    ensures exists i | 0 <= i < |draws| ::
              Acceptable(draws[i]) && draws[i].bytes.value == key &&
              forall j | 0 <= j < i :: !Acceptable(draws[j])
  {
    if Acceptable(draws[0]) then draws[0].bytes.value
    else
      var i :| 0 <= i < |draws| && Acceptable(draws[i]);
      assert i > 0 && Acceptable(draws[1..][i - 1]);
      var key := FirstStrongKey(draws[1..]);
      var k :| 0 <= k < |draws[1..]| && Acceptable(draws[1..][k]) && draws[1..][k].bytes.value == key &&
                forall j | 0 <= j < k :: !Acceptable(draws[1..][j]);
      assert forall j | 0 <= j < k + 1 :: !Acceptable(draws[j]) by {
        forall j | 0 <= j < k + 1 ensures !Acceptable(draws[j]) {
          if j > 0 { assert draws[j] == draws[1..][j - 1]; }
        }
      }
      assert draws[k + 1] == draws[1..][k];
      key
  }

  /** The first acceptable draw is the one `FirstStrongKey` picks. */
  lemma {:induction false} FirstStrongKeyAt(draws: seq<Draw>, i: nat)
    requires i < |draws| && Acceptable(draws[i])
    requires forall j | 0 <= j < i :: !Acceptable(draws[j])
    ensures FirstStrongKey(draws) == draws[i].bytes.value
  {
    if i > 0 {
      assert Acceptable(draws[1..][i - 1]);
      assert forall j | 0 <= j < i - 1 :: !Acceptable(draws[1..][j]) by {
        forall j | 0 <= j < i - 1 ensures !Acceptable(draws[1..][j]) { assert draws[1..][j] == draws[j + 1]; }
      }
      FirstStrongKeyAt(draws[1..], i - 1);
    }
  }

  /** `generateKey`: draw until the source reports strong, non-falsy bytes. The source
      loops forever when no such draw comes, so one is required among `draws`. */
  method GenerateKey(length: nat, draws: seq<Draw>) returns (key: seq<byte>)
    requires exists i | 0 <= i < |draws| :: Acceptable(draws[i])
    requires forall i | 0 <= i < |draws| && draws[i].bytes.Some? :: |draws[i].bytes.value| == length
    ensures key == FirstStrongKey(draws)
    ensures |key| == length && !FalsyBytes(key)
  {
    var isStrong := false;
    var i := -1;
    key := [];
    // do { ... } while (!isStrong), with the first pass made by the loop itself
    while !isStrong
      invariant -1 <= i < |draws|
      invariant forall j | 0 <= j < i :: !Acceptable(draws[j])
      invariant i == -1 ==> !isStrong
      invariant i >= 0 ==> (isStrong <==> Acceptable(draws[i]))
      invariant isStrong ==> key == draws[i].bytes.value
      decreases |draws| - i
    {
      var k :| 0 <= k < |draws| && Acceptable(draws[k]);
      assert k > i;
      i := i + 1;
      var d := draws[i];
      key := if d.bytes.Some? then d.bytes.value else [];
      isStrong := d.strong;
      if d.bytes.None? || FalsyBytes(key) {
        isStrong := false;
      }
    }
    FirstStrongKeyAt(draws, i);
  }

  // ---- The table cipher --------------------------------------------------------------------

  /** `openssl_decrypt` followed by `decypher`'s falsy test: only a ciphertext under this
      very key yields its plaintext, and a falsy plaintext counts as a failure. */
  function Decrypt(key: seq<byte>, blob: Blob): (r: Result<string>)
    ensures r.Ok? <==> blob.Enc? && blob.key == key && !FileHandling.Falsy(blob.plain)
    ensures r.Ok? ==> r.value == blob.plain
    ensures r.Err? ==> r.error == CypherFailedException
  {
    if blob.Enc? && blob.key == key && !FileHandling.Falsy(blob.plain) then Ok(blob.plain)
    else Err(CypherFailedException)
  }

  /** `is_file` and a non-falsy `file_get_contents`: what `decypher` needs before it
      decrypts. */
  predicate Readable(files: map<string, Blob>, failing: set<string>, path: string)
  {
    path in files && path !in failing && !FileHandling.Falsy(Text(files[path]))
  }

  /** `new Cyphering(path)` then `decypher()` under the stored key `encoded`, leaving out
      the key-age check: the constructor's path test, the read, the key, the decryption. */
  function Opened(files: map<string, Blob>, failing: set<string>, path: string, encoded: string): (r: Result<string>)
    ensures r.Ok? <==>
              Readable(files, failing, path) && KeyDecoded(encoded).Ok? &&
              files[path].Enc? && files[path].key == KeyDecoded(encoded).value &&
              !FileHandling.Falsy(files[path].plain)
    ensures r.Ok? ==> r.value == files[path].plain
    ensures path !in files ==> r == Err(CypherInvalidPathException)
    ensures path in files && !Readable(files, failing, path) ==> r == Err(DatabaseAccessException)
  {
    if path !in files then Err(CypherInvalidPathException)
    else if !Readable(files, failing, path) then Err(DatabaseAccessException)
    else
      match KeyDecoded(encoded)
      case Err(e) => Err(e)
      case Ok(key) => Decrypt(key, files[path])
  }

  /** `cypherWithDifferentKey`: encrypt `data` under `key` into an existing file. */
  function CypheredWith(files: map<string, Blob>, failing: set<string>, path: string, data: string, key: seq<byte>)
    : (r: (map<string, Blob>, Outcome))
    ensures r.1 == Done <==> path in files && path !in failing
    ensures r.1 == Done ==> r.0 == files[path := Enc(key, data)]
    ensures r.1 != Done ==> r.0 == files && r.1.Failed?
  {
    if path !in files then (files, Failed(CypherInvalidPathException))
    else if path in failing then (files, Failed(DatabaseAccessException))
    else (files[path := Enc(key, data)], Done)
  }

  /** `cypher`: encrypt `data` under the stored key. */
  function Cyphered(files: map<string, Blob>, failing: set<string>, path: string, data: string, encoded: string)
    : (map<string, Blob>, Outcome)
  {
    if path !in files then (files, Failed(CypherInvalidPathException))
    else
      match KeyDecoded(encoded)
      case Err(e) => (files, Failed(e))
      case Ok(key) => CypheredWith(files, failing, path, data, key)
  }

  /** With the key unchanged, decrypting what was just encrypted gives the data back, unless
      the data is falsy, which `decypher` reports as a failed decryption. */
  lemma {:induction false} CypherThenDecypher(files: map<string, Blob>, failing: set<string>, path: string, data: string, encoded: string)
    requires Cyphered(files, failing, path, data, encoded).1 == Done
    ensures var after := Cyphered(files, failing, path, data, encoded).0;
            Opened(after, failing, path, encoded) ==
              if FileHandling.Falsy(data) then Err(CypherFailedException) else Ok(data)
  {
  }

  // ---- Rotation: which files, and what happens to them ---------------------------------------

  /** `array_diff($filesAll, [".", ".."])` as written: every entry of the database's
      directory, the access queue included. */
  function KeptNamesAsWritten(names: seq<string>): (kept: seq<string>)
    ensures forall n :: n in kept <==> n in names && n != "." && n != ".."
  {
    if names == [] then []
    else if names[0] == "." || names[0] == ".." then KeptNamesAsWritten(names[1..])
    else [names[0]] + KeptNamesAsWritten(names[1..])
  }

  /** The entries a rotation must re-encrypt: the tables, leaving out `.`, `..` and the
      plain-text access queue. */
  function KeptNames(names: seq<string>): (kept: seq<string>)
    ensures forall n :: n in kept <==> n in names && n != "." && n != ".." && n != DatConnFilenameDef
  {
    if names == [] then []
    else if names[0] == "." || names[0] == ".." || names[0] == DatConnFilenameDef then KeptNames(names[1..])
    else [names[0]] + KeptNames(names[1..])
  }

  /** The path `reCypher` builds for each entry of a database's directory. */
  function EntryPath(database: string, name: string): string
  {
    DatRoot + database + "/" + name
  }

  function TargetPaths(database: string, names: seq<string>): (paths: seq<string>)
    ensures |paths| == |names| && forall i | 0 <= i < |names| :: paths[i] == EntryPath(database, names[i])
  {
    if names == [] then [] else [EntryPath(database, names[0])] + TargetPaths(database, names[1..])
  }

  /** The queue file is an entry of its own database's directory. */
  lemma {:induction false} QueueIsAnEntry(database: string)
    ensures EntryPath(database, DatConnFilenameDef) == QueuePath(database)
  {
  }

  /** Decrypt one file under the stored key and write it back under the new key. The path
      was just read, so the write succeeds. */
  function ReEncryptFile(files: map<string, Blob>, failing: set<string>, path: string, encoded: string,
                         newKey: seq<byte>): (map<string, Blob>, Outcome)
  {
    match Opened(files, failing, path, encoded)
    case Err(e) => (files, Failed(e))
    case Ok(plain) => (files[path := Enc(newKey, plain)], Done)
  }

  /** The inner `foreach` over `paths`, stopping at the first exception. */
  function ReEncryptAll(files: map<string, Blob>, failing: set<string>, paths: seq<string>, encoded: string,
                        newKey: seq<byte>): (map<string, Blob>, Outcome)
    decreases |paths|
  {
    if paths == [] then (files, Done)
    else
      var (next, o) := ReEncryptFile(files, failing, paths[0], encoded, newKey);
      if o.Failed? then (next, o) else ReEncryptAll(next, failing, paths[1..], encoded, newKey)
  }

  /** A file the rotation can carry over: readable, and a non-falsy ciphertext under `key`. */
  predicate Rotatable(files: map<string, Blob>, failing: set<string>, path: string, key: seq<byte>)
  {
    path in files && path !in failing && files[path].Enc? && files[path].key == key &&
    !FileHandling.Falsy(files[path].plain)
  }

  predicate Distinct(s: seq<string>)
  {
    forall i, j | 0 <= i < j < |s| :: s[i] != s[j]
  }

  /** Re-encrypting distinct files succeeds exactly when each is a readable ciphertext under
      the stored key, and then each holds its own plaintext under the new key while every
      other file is left as it was. */
  lemma {:induction false} ReEncryptAllRotates(files: map<string, Blob>, failing: set<string>, paths: seq<string>,
                                               encoded: string, key: seq<byte>, newKey: seq<byte>)
    requires KeyDecoded(encoded) == Ok(key) && Distinct(paths)
    ensures var (after, o) := ReEncryptAll(files, failing, paths, encoded, newKey);
            (o == Done <==> forall p | p in paths :: Rotatable(files, failing, p, key)) &&
            (o == Done ==>
               after.Keys == files.Keys &&
               (forall p | p in paths :: after[p] == Enc(newKey, files[p].plain)) &&
               (forall p | p in files && p !in paths :: after[p] == files[p]))
    decreases |paths|
  {
    if paths != [] {
      var p0 := paths[0];
      var rest := paths[1..];
      var (next, o0) := ReEncryptFile(files, failing, p0, encoded, newKey);
      assert o0 == Done <==> Rotatable(files, failing, p0, key);
      assert Distinct(rest) by {
        forall i, j | 0 <= i < j < |rest| ensures rest[i] != rest[j] {
          assert rest[i] == paths[i + 1] && rest[j] == paths[j + 1];
        }
      }
      assert p0 !in rest by {
        forall k | 0 <= k < |rest| ensures rest[k] != p0 { assert rest[k] == paths[k + 1]; }
      }
      if o0 == Done {
        ReEncryptAllRotates(next, failing, rest, encoded, key, newKey);
        forall p | p in rest ensures Rotatable(next, failing, p, key) == Rotatable(files, failing, p, key) {
          assert p != p0;
        }
        assert forall p | p in paths :: p == p0 || p in rest;
      }
    }
  }

  /** Re-encryption stops at the first plain-text file it meets, wherever that file is in
      the list. */
  lemma {:induction false} PlainFileStopsReEncryption(files: map<string, Blob>, failing: set<string>, paths: seq<string>,
                                                      encoded: string, newKey: seq<byte>, p: string)
    requires p in paths && p in files && files[p].Plain?
    ensures ReEncryptAll(files, failing, paths, encoded, newKey).1.Failed?
    decreases |paths|
  {
    var (next, o0) := ReEncryptFile(files, failing, paths[0], encoded, newKey);
    if paths[0] != p && o0 == Done {
      assert p in paths[1..];
      PlainFileStopsReEncryption(next, failing, paths[1..], encoded, newKey, p);
    }
  }

  /** As written, the rotation also decrypts the plain-text access queue of each database,
      so it throws on every database whose queue exists. */
  lemma {:induction false} RotationAsWrittenFailsOnQueue(files: map<string, Blob>, failing: set<string>, database: string,
                                      names: seq<string>, encoded: string, newKey: seq<byte>)
    requires DatConnFilenameDef in names
    requires QueuePath(database) in files && files[QueuePath(database)].Plain?
    ensures ReEncryptAll(files, failing, TargetPaths(database, KeptNamesAsWritten(names)), encoded, newKey).1.Failed?
  {
    var kept := KeptNamesAsWritten(names);
    var k :| 0 <= k < |kept| && kept[k] == DatConnFilenameDef;
    assert TargetPaths(database, kept)[k] == QueuePath(database);
    PlainFileStopsReEncryption(files, failing, TargetPaths(database, kept), encoded, newKey, QueuePath(database));
  }

  /** With the queue left out, no rotation target of a database is its access queue. */
  lemma {:induction false} RotationSparesQueue(database: string, names: seq<string>)
    ensures QueuePath(database) !in TargetPaths(database, KeptNames(names))
  {
    var paths := TargetPaths(database, KeptNames(names));
    forall i | 0 <= i < |paths| ensures paths[i] != QueuePath(database) {
      var n := KeptNames(names)[i];
      assert n in KeptNames(names);
      var pre := DatRoot + database + "/";
      assert paths[i] == pre + n && QueuePath(database) == pre + DatConnFilenameDef;
      assert paths[i][|pre|..] == n && QueuePath(database)[|pre|..] == DatConnFilenameDef;
    }
  }

  /** The outer `foreach` over `databases`: list each directory (`scandir`, whose false or
      empty answer throws), then re-encrypt its tables; stop at the first exception. */
  function RotateFrom(files: map<string, Blob>, failing: set<string>, databases: seq<string>,
                      listings: seq<Option<seq<string>>>, encoded: string, newKey: seq<byte>)
    : (map<string, Blob>, Outcome)
    requires |listings| == |databases|
    decreases |databases|
  {
    if databases == [] then (files, Done)
    else if listings[0].None? || listings[0].value == [] then (files, Failed(FileManipulateException))
    else
      var targets := TargetPaths(databases[0], KeptNames(listings[0].value));
      var (next, o) := ReEncryptAll(files, failing, targets, encoded, newKey);
      if o.Failed? then (next, o)
      else RotateFrom(next, failing, databases[1..], listings[1..], encoded, newKey)
  }

  /** Every directory could be listed. */
  predicate AllListed(listings: seq<Option<seq<string>>>)
  {
    forall i | 0 <= i < |listings| :: listings[i].Some? && listings[i].value != []
  }

  /** Every table of every database, in the order the rotation visits them. */
  function AllTargets(databases: seq<string>, listings: seq<Option<seq<string>>>): seq<string>
    requires |listings| == |databases| && AllListed(listings)
    decreases |databases|
  {
    if databases == [] then []
    else TargetPaths(databases[0], KeptNames(listings[0].value)) + AllTargets(databases[1..], listings[1..])
  }

  lemma {:induction false} ReEncryptAllAppend(files: map<string, Blob>, failing: set<string>, a: seq<string>,
                                              b: seq<string>, encoded: string, newKey: seq<byte>)
    ensures ReEncryptAll(files, failing, a + b, encoded, newKey) ==
              var (next, o) := ReEncryptAll(files, failing, a, encoded, newKey);
              if o.Failed? then (next, o) else ReEncryptAll(next, failing, b, encoded, newKey)
    decreases |a|
  {
    if a == [] {
      assert a + b == b;
    } else {
      assert (a + b)[0] == a[0] && (a + b)[1..] == a[1..] + b;
      var (next, o) := ReEncryptFile(files, failing, a[0], encoded, newKey);
      if o.Done? {
        ReEncryptAllAppend(next, failing, a[1..], b, encoded, newKey);
      }
    }
  }

  /** With every directory listed, the rotation is one re-encryption of all tables; with
      any directory unlisted, it fails. */
  lemma {:induction false} RotateFromIsReEncryptAll(files: map<string, Blob>, failing: set<string>,
                                                    databases: seq<string>, listings: seq<Option<seq<string>>>,
                                                    encoded: string, newKey: seq<byte>)
    requires |listings| == |databases|
    ensures AllListed(listings) ==>
              RotateFrom(files, failing, databases, listings, encoded, newKey) ==
              ReEncryptAll(files, failing, AllTargets(databases, listings), encoded, newKey)
    ensures !AllListed(listings) ==> RotateFrom(files, failing, databases, listings, encoded, newKey).1.Failed?
    decreases |databases|
  {
    if databases != [] {
      var rest := listings[1..];
      assert AllListed(listings) ==> AllListed(rest) by {
        if AllListed(listings) {
          forall i | 0 <= i < |rest| ensures rest[i].Some? && rest[i].value != [] { assert rest[i] == listings[i + 1]; }
        }
      }
      assert !AllListed(listings) && listings[0].Some? && listings[0].value != [] ==> !AllListed(rest) by {
        if !AllListed(listings) && listings[0].Some? && listings[0].value != [] {
          var i :| 0 <= i < |listings| && !(listings[i].Some? && listings[i].value != []);
          assert i > 0 && rest[i - 1] == listings[i];
        }
      }
      if listings[0].Some? && listings[0].value != [] {
        var targets := TargetPaths(databases[0], KeptNames(listings[0].value));
        var (next, o) := ReEncryptAll(files, failing, targets, encoded, newKey);
        RotateFromIsReEncryptAll(next, failing, databases[1..], rest, encoded, newKey);
        if AllListed(listings) {
          ReEncryptAllAppend(files, failing, targets, AllTargets(databases[1..], rest), encoded, newKey);
        }
      }
    }
  }

  lemma {:induction false} KeptNamesDistinct(names: seq<string>)
    requires Distinct(names)
    ensures Distinct(KeptNames(names))
  {
    if names != [] {
      var rest := names[1..];
      assert Distinct(rest) by {
        forall i, j | 0 <= i < j < |rest| ensures rest[i] != rest[j] {
          assert rest[i] == names[i + 1] && rest[j] == names[j + 1];
        }
      }
      KeptNamesDistinct(rest);
      assert names[0] !in rest by {
        forall k | 0 <= k < |rest| ensures rest[k] != names[0] { assert rest[k] == names[k + 1]; }
      }
      var kept := KeptNames(names);
      if kept != KeptNames(rest) {
        assert kept == [names[0]] + KeptNames(rest);
        assert names[0] !in KeptNames(rest);
        forall i, j | 0 <= i < j < |kept| ensures kept[i] != kept[j] {
          assert kept[j] == KeptNames(rest)[j - 1];
          if i > 0 { assert kept[i] == KeptNames(rest)[i - 1]; }
        }
      }
    }
  }

  /** Distinct entries of one directory give distinct paths. */
  lemma {:induction false} TargetPathsDistinct(database: string, names: seq<string>)
    requires Distinct(names)
    ensures Distinct(TargetPaths(database, names))
  {
    var paths := TargetPaths(database, names);
    var pre := DatRoot + database + "/";
    forall i, j | 0 <= i < j < |paths| ensures paths[i] != paths[j] {
      assert paths[i] == pre + names[i] && paths[j] == pre + names[j];
      assert paths[i][|pre|..] == names[i] && paths[j][|pre|..] == names[j];
    }
  }

  /** Every path of a database starts with its directory. */
  lemma {:induction false} TargetPathsIn(database: string, names: seq<string>, k: nat)
    requires k < |TargetPaths(database, names)|
    ensures |DatRoot| < |TargetPaths(database, names)[k]| || database == ""
    ensures database != "" ==> TargetPaths(database, names)[k][|DatRoot|] == database[0]
  {
    var p := TargetPaths(database, names)[k];
    assert p == DatRoot + database + "/" + names[k];
  }

  /** Two lists without repeats and without a common entry join into one without repeats. */
  lemma {:induction false} DistinctJoin(a: seq<string>, b: seq<string>)
    requires Distinct(a) && Distinct(b)
    requires forall i, j | 0 <= i < |a| && 0 <= j < |b| :: a[i] != b[j]
    ensures Distinct(a + b)
  {
    var all := a + b;
    forall i, j | 0 <= i < j < |all| ensures all[i] != all[j] {
      if j < |a| {
        assert all[i] == a[i] && all[j] == a[j];
      } else if i >= |a| {
        assert all[i] == b[i - |a|] && all[j] == b[j - |a|];
      } else {
        assert all[i] == a[i] && all[j] == b[j - |a|];
      }
    }
  }

  /** The tables of the two databases are distinct paths. */
  lemma {:induction false} AllTargetsDistinct(listings: seq<Option<seq<string>>>)
    requires |listings| == |ListOfDatabases| && AllListed(listings)
    requires forall i | 0 <= i < |listings| :: Distinct(listings[i].value)
    ensures Distinct(AllTargets(ListOfDatabases, listings))
  {
    var d0 := ListOfDatabases[0];
    var d1 := ListOfDatabases[1];
    var k0 := KeptNames(listings[0].value);
    var k1 := KeptNames(listings[1].value);
    var t0 := TargetPaths(d0, k0);
    var t1 := TargetPaths(d1, k1);
    assert ListOfDatabases[1..][1..] == [];
    assert AllTargets(ListOfDatabases, listings) == t0 + (t1 + []);
    assert t1 + [] == t1;
    KeptNamesDistinct(listings[0].value);
    KeptNamesDistinct(listings[1].value);
    TargetPathsDistinct(d0, k0);
    TargetPathsDistinct(d1, k1);
    forall i, j | 0 <= i < |t0| && 0 <= j < |t1| ensures t0[i] != t1[j] {
      TargetPathsIn(d0, k0, i);
      TargetPathsIn(d1, k1, j);
    }
    DistinctJoin(t0, t1);
  }

  /** What the rotation does to the databases: it succeeds exactly when every directory
      is listed and every table is a readable ciphertext under the stored key; then each
      table holds its own plaintext under the new key and no other file changes. */
  lemma {:induction false} RotationOfAllDatabases(files: map<string, Blob>, failing: set<string>, listings: seq<Option<seq<string>>>,
                               encoded: string, key: seq<byte>, newKey: seq<byte>)
    requires |listings| == |ListOfDatabases| && KeyDecoded(encoded) == Ok(key)
    requires forall i | 0 <= i < |listings| && listings[i].Some? :: Distinct(listings[i].value)
    ensures var (after, o) := RotateFrom(files, failing, ListOfDatabases, listings, encoded, newKey);
            (o == Done <==>
               AllListed(listings) &&
               forall p | p in AllTargets(ListOfDatabases, listings) :: Rotatable(files, failing, p, key)) &&
            (o == Done ==>
               AllListed(listings) && after.Keys == files.Keys &&
               (forall p | p in AllTargets(ListOfDatabases, listings) :: after[p] == Enc(newKey, files[p].plain)) &&
               (forall p | p in files && p !in AllTargets(ListOfDatabases, listings) :: after[p] == files[p]))
  {
    RotateFromIsReEncryptAll(files, failing, ListOfDatabases, listings, encoded, newKey);
    if AllListed(listings) {
      AllTargetsDistinct(listings);
      ReEncryptAllRotates(files, failing, AllTargets(ListOfDatabases, listings), encoded, key, newKey);
    }
  }

  /** A database's paths never name another database's queue when the two names start
      differently. */
  lemma {:induction false} OtherQueueIsNotTarget(database: string, names: seq<string>, other: string)
    requires database != "" && other != "" && database[0] != other[0]
    ensures QueuePath(other) !in TargetPaths(database, names)
  {
    assert QueuePath(other)[|DatRoot|] == other[0];
    forall k | 0 <= k < |TargetPaths(database, names)| ensures TargetPaths(database, names)[k] != QueuePath(other) {
      TargetPathsIn(database, names, k);
    }
  }

  /** No rotation target is an access queue. */
  lemma {:induction false} QueuesAreNotTargets(listings: seq<Option<seq<string>>>, d: string)
    requires |listings| == |ListOfDatabases| && AllListed(listings) && d in ListOfDatabases
    ensures QueuePath(d) !in AllTargets(ListOfDatabases, listings)
  {
    var d0 := ListOfDatabases[0];
    var d1 := ListOfDatabases[1];
    var n0 := KeptNames(listings[0].value);
    var n1 := KeptNames(listings[1].value);
    var t0 := TargetPaths(d0, n0);
    var t1 := TargetPaths(d1, n1);
    assert ListOfDatabases[1..][1..] == [];
    assert AllTargets(ListOfDatabases, listings) == t0 + (t1 + []);
    assert d == d0 || d == d1;
    if d == d0 {
      RotationSparesQueue(d0, listings[0].value);
      OtherQueueIsNotTarget(d1, n1, d0);
    } else {
      RotationSparesQueue(d1, listings[1].value);
      OtherQueueIsNotTarget(d0, n0, d1);
    }
    assert QueuePath(d) !in t0 && QueuePath(d) !in t1;
  }

  /** Leaving the queues out is not enough on its own: without a withdrawal, the
      announcement is still at the head of each queue after a complete rotation, so every
      connection, for every table, is told to rotate and wait, for ever. */
  lemma {:induction false} AnnouncementOutlivesRotation(files: map<string, Blob>, failing: set<string>,
                                     listings: seq<Option<seq<string>>>, encoded: string, key: seq<byte>,
                                     newKey: seq<byte>, d: string, rest: string, id: string, table: string)
    requires |listings| == |ListOfDatabases| && KeyDecoded(encoded) == Ok(key)
    requires forall i | 0 <= i < |listings| && listings[i].Some? :: Distinct(listings[i].value)
    requires d in ListOfDatabases && QueuePath(d) in files && files[QueuePath(d)] == Plain(Entry(Sentinel) + rest)
    requires RotateFrom(files, failing, ListOfDatabases, listings, encoded, newKey).1 == Done
    ensures var after := RotateFrom(files, failing, ListOfDatabases, listings, encoded, newKey).0;
            QueuePath(d) in after && after[QueuePath(d)] == files[QueuePath(d)] &&
            QueueVerdict(Text(after[QueuePath(d)]), id, table) == RotationPending
  {
    RotationOfAllDatabases(files, failing, listings, encoded, key, newKey);
    QueuesAreNotTargets(listings, d);
    AnnouncementBlocksEveryone(rest, id, table);
  }

  /** With the withdrawal that follows a complete rotation, a queue that held announcements
      before connection records gives every connection the verdict of those records alone. */
  lemma {:induction false} RotationReleasesQueues(files: map<string, Blob>, failing: set<string>,
                               listings: seq<Option<seq<string>>>, encoded: string, key: seq<byte>,
                               newKey: seq<byte>, d: string, m: nat, rs: seq<Record>, id: string, table: string)
    requires |listings| == |ListOfDatabases| && KeyDecoded(encoded) == Ok(key)
    requires forall i | 0 <= i < |listings| && listings[i].Some? :: Distinct(listings[i].value)
    requires d in ListOfDatabases && QueuePath(d) !in failing
    requires QueuePath(d) in files && files[QueuePath(d)] == Plain(Serialize(Announcements(m) + rs))
    requires AllClean(rs) && id != "" && forall i | 0 <= i < |rs| :: rs[i].id != SystemReCypher
    requires RotateFrom(files, failing, ListOfDatabases, listings, encoded, newKey).1 == Done
    ensures var after := Withdrawn(RotateFrom(files, failing, ListOfDatabases, listings, encoded, newKey).0,
                                   failing, ListOfDatabases);
            QueuePath(d) in after &&
            QueueVerdict(Text(after[QueuePath(d)]), id, table) == if Blocks(rs, id, table) then Blocked else Free
  {
    var rotated := RotateFrom(files, failing, ListOfDatabases, listings, encoded, newKey).0;
    RotationOfAllDatabases(files, failing, listings, encoded, key, newKey);
    QueuesAreNotTargets(listings, d);
    assert rotated[QueuePath(d)] == files[QueuePath(d)];
    WithdrawnQueue(rotated, failing, d);
    WithdrawnQueueIsNotPending(m, rs, id, table);
  }

  // ---- The process's rotation state ---------------------------------------------------------

  /** What `reCypher` takes from outside: today's day number, the clock for the archive's
      name, whether the archive library succeeds, what `scandir` answers for each listed
      database, and the random source's answers. */
  datatype Env = Env(today: int, now: Timestamp, archiveBuilds: bool,
                     listings: seq<Option<seq<string>>>, keyDraws: seq<Draw>)

  /** The oracles answer as PHP does: one listing per database, each of distinct names;
      key draws of the requested length; and, since `generateKey` otherwise never
      returns, a strong draw among them. */
  predicate ValidEnv(env: Env)
  {
    |env.listings| == |ListOfDatabases| &&
    (forall i | 0 <= i < |env.listings| && env.listings[i].Some? :: Distinct(env.listings[i].value)) &&
    (forall i | 0 <= i < |env.keyDraws| && env.keyDraws[i].bytes.Some? ::
       |env.keyDraws[i].bytes.value| == EncryptKeyLength) &&
    (exists i | 0 <= i < |env.keyDraws| :: Acceptable(env.keyDraws[i]))
  }

  /** `archiveFolder(datRoot, datBackupPath)` succeeds: both folders exist, the library
      builds, and there is a file to put in the archive. */
  predicate ArchiveSucceeds(files: map<string, Blob>, dirs: set<string>, builds: bool)
  {
    Exists(files, dirs, DatBackupPath) && Exists(files, dirs, DatRoot) && builds && HasFiles(files, DatRoot)
  }

  /** The archives once `archiveFolder(datRoot, datBackupPath)` has stored a backup of
      the databases' files, named after the time `now`. */
  function Backup(archives: map<string, map<string, Blob>>, files: map<string, Blob>, now: Timestamp)
    : map<string, map<string, Blob>>
  {
    archives[DatBackupPath + ArchiveName(now) := Snapshot(files, DatRoot)]
  }

  /** The static state of `Cyphering` as a value: the stored key (base 64), the day of its
      last change, and the two rotation flags. */
  datatype KeyState = KeyState(key: string, lastChange: int, waiting: bool, inProgress: bool)

  /** Everything `reCypher` leaves behind: the files, the archives, the static state and
      how it ended. */
  datatype Rotation = Rotation(files: map<string, Blob>, archives: map<string, map<string, Blob>>,
                               state: KeyState, outcome: Outcome)

  /** `reCypher` on values, with the two corrections the rotation needs (the access queues
      are not decrypted, the announcements are withdrawn once every table is re-encrypted):
      without a request nothing happens; otherwise the request is taken, a new key drawn
      and the databases archived. A failed archive halts the process; an exception in the
      loops leaves the files so far rotated and the in-progress flag set; a complete
      rotation withdraws the announcements and commits the new key and today's date. */
  function ReCypherEffect(files: map<string, Blob>, archives: map<string, map<string, Blob>>, dirs: set<string>,
                          failing: set<string>, s: KeyState, env: Env): Rotation
    requires ValidEnv(env)
  {
    if !s.waiting then Rotation(files, archives, s, Done)
    else if !ArchiveSucceeds(files, dirs, env.archiveBuilds) then
      Rotation(files, archives, s.(waiting := false, inProgress := false), Failed(ProcessHalted))
    else
      var newKey := FirstStrongKey(env.keyDraws);
      var (rotated, ro) := RotateFrom(files, failing, ListOfDatabases, env.listings, s.key, newKey);
      var archived := Backup(archives, files, env.now);
      if ro.Failed? then Rotation(rotated, archived, s.(waiting := false, inProgress := true), ro)
      else Rotation(Withdrawn(rotated, failing, ListOfDatabases), archived,
                    KeyState(Base64.Encode(newKey), env.today, false, false), Done)
  }

  /** What `reCypher` promises. Without a request nothing changes; a request is always
      consumed. A failed archive halts with every file, every archive, the key and its date
      kept. Once archived, an exception in the loops keeps the key and leaves the flag set,
      and a complete rotation leaves every table under the new key (when the stored key
      decodes), stores a key that decodes back to the new one, dates it today and ends the
      rotation. */
  lemma {:induction false} ReCypherOutcomes(files: map<string, Blob>, archives: map<string, map<string, Blob>>,
                                            dirs: set<string>, failing: set<string>, s: KeyState, env: Env)
    requires ValidEnv(env)
    ensures var e := ReCypherEffect(files, archives, dirs, failing, s, env);
            var newKey := FirstStrongKey(env.keyDraws);
            (!s.waiting ==> e == Rotation(files, archives, s, Done)) &&
            !e.state.waiting &&
            (s.waiting && !ArchiveSucceeds(files, dirs, env.archiveBuilds) ==>
               e.outcome == Failed(ProcessHalted) && e.files == files && e.archives == archives &&
               e.state.key == s.key && e.state.lastChange == s.lastChange && !e.state.inProgress) &&
            (s.waiting && ArchiveSucceeds(files, dirs, env.archiveBuilds) ==>
               e.archives == Backup(archives, files, env.now) &&
               (e.outcome.Failed? ==>
                  e.state.key == s.key && e.state.lastChange == s.lastChange && e.state.inProgress) &&
               (e.outcome == Done ==>
                  !e.state.inProgress && e.state.lastChange == env.today &&
                  KeyDecoded(e.state.key) == Ok(newKey) && e.files.Keys == files.Keys &&
                  AllListed(env.listings) &&
                  (KeyDecoded(s.key).Ok? ==>
                     forall p | p in AllTargets(ListOfDatabases, env.listings) ::
                       Rotatable(files, failing, p, KeyDecoded(s.key).value) &&
                       e.files[p] == Enc(newKey, files[p].plain))))
  {
    if s.waiting && ArchiveSucceeds(files, dirs, env.archiveBuilds) {
      var newKey := FirstStrongKey(env.keyDraws);
      var (rotated, ro) := RotateFrom(files, failing, ListOfDatabases, env.listings, s.key, newKey);
      if ro == Done {
        KeyRoundTrip(newKey);
        RotateFromIsReEncryptAll(files, failing, ListOfDatabases, env.listings, s.key, newKey);
        if KeyDecoded(s.key).Ok? {
          RotationOfAllDatabases(files, failing, env.listings, s.key, KeyDecoded(s.key).value, newKey);
        }
      }
    }
  }

  /** `scandir` names every file directly under each database directory it lists. */
  ghost predicate ListsEveryTable(files: map<string, Blob>, listings: seq<Option<seq<string>>>)
    requires |listings| == |ListOfDatabases|
  {
    forall i, n | 0 <= i < |listings| && listings[i].Some? && '/' !in n && EntryPath(ListOfDatabases[i], n) in files ::
      n in listings[i].value
  }

  /** When the listings are those of the files, a complete rotation reaches every table:
      each file directly under a database directory, other than `.`, `..` and the access
      queue, was a ciphertext under the stored key and now holds its plaintext under the
      new key. */
  lemma {:induction false} RotationCoversEveryTable(files: map<string, Blob>, archives: map<string, map<string, Blob>>,
                                                    dirs: set<string>, failing: set<string>, s: KeyState,
                                                    env: Env, i: nat, n: string)
    requires ValidEnv(env) && ListsEveryTable(files, env.listings)
    requires s.waiting && KeyDecoded(s.key).Ok?
    requires i < |ListOfDatabases| && '/' !in n && n != "." && n != ".." && n != DatConnFilenameDef
    requires EntryPath(ListOfDatabases[i], n) in files
    requires ReCypherEffect(files, archives, dirs, failing, s, env).outcome == Done
    ensures var p := EntryPath(ListOfDatabases[i], n);
            var after := ReCypherEffect(files, archives, dirs, failing, s, env).files;
            Rotatable(files, failing, p, KeyDecoded(s.key).value) &&
            p in after && after[p] == Enc(FirstStrongKey(env.keyDraws), files[p].plain)
  {
    var newKey := FirstStrongKey(env.keyDraws);
    var key := KeyDecoded(s.key).value;
    var p := EntryPath(ListOfDatabases[i], n);
    var (rotated, ro) := RotateFrom(files, failing, ListOfDatabases, env.listings, s.key, newKey);
    assert ArchiveSucceeds(files, dirs, env.archiveBuilds) && ro == Done;
    RotationOfAllDatabases(files, failing, env.listings, s.key, key, newKey);
    ListedTableIsTarget(env.listings, i, n);
    assert rotated[p] == Enc(newKey, files[p].plain);
  }

  /** A listed table of a database is one of the rotation's targets. */
  lemma {:induction false} ListedTableIsTarget(listings: seq<Option<seq<string>>>, i: nat, n: string)
    requires |listings| == |ListOfDatabases| && AllListed(listings) && i < |listings|
    requires n in listings[i].value && n != "." && n != ".." && n != DatConnFilenameDef
    ensures EntryPath(ListOfDatabases[i], n) in AllTargets(ListOfDatabases, listings)
  {
    var kept := KeptNames(listings[i].value);
    assert n in kept;
    var k :| 0 <= k < |kept| && kept[k] == n;
    var t0 := TargetPaths(ListOfDatabases[0], KeptNames(listings[0].value));
    var t1 := TargetPaths(ListOfDatabases[1], KeptNames(listings[1].value));
    assert AllTargets(ListOfDatabases, listings) == t0 + t1 by {
      assert ListOfDatabases[1..][1..] == [] && listings[1..][1..] == [];
    }
    if i == 0 {
      assert t0[k] == EntryPath(ListOfDatabases[i], n);
    } else {
      assert t1[k] == EntryPath(ListOfDatabases[i], n);
    }
  }

  /** The static state of `Cyphering` in one PHP process: the stored key (base 64), the
      day of its last change, and the two rotation flags. `new Cyphering(path)` followed by a
      call is one method here, taking the path. */
  class Cyphering {
    var encryptKey: string
    var encryptKeyLastChange: int
    var reCypheringWaitingToBeStarted: bool
    var reCypheringInProgress: bool

    /** A process starts from the key and date compiled into the class, with no rotation
        asked for or running. */
    constructor (initialKey: string, initialLastChange: int)
      ensures encryptKey == initialKey && encryptKeyLastChange == initialLastChange
      ensures !reCypheringWaitingToBeStarted && !reCypheringInProgress
    {
      encryptKey := initialKey;
      encryptKeyLastChange := initialLastChange;
      reCypheringWaitingToBeStarted := false;
      reCypheringInProgress := false;
    }

    function State(): KeyState
      reads this
    {
      KeyState(encryptKey, encryptKeyLastChange, reCypheringWaitingToBeStarted, reCypheringInProgress)
    }

    /** `checkValidnessOfKey`: a key younger than the delay changes nothing; an old one
        asks for a rotation and announces it in every database's queue. */
    method CheckValidnessOfKey(fs: FileSystem, today: int) returns (o: Outcome)
      modifies this`reCypheringWaitingToBeStarted, fs`files
      ensures !KeyDue(encryptKeyLastChange, today) ==>
                o == Done && fs.files == old(fs.files) &&
                reCypheringWaitingToBeStarted == old(reCypheringWaitingToBeStarted)
      ensures KeyDue(encryptKeyLastChange, today) ==>
                reCypheringWaitingToBeStarted &&
                (fs.files, o) == AnnouncedToAll(old(fs.files), fs.dirs, fs.failing, ListOfDatabases)
    {
      if !KeyDue(encryptKeyLastChange, today) {
        return Done;
      }
      reCypheringWaitingToBeStarted := true;
      o := AnnounceReCyphering(fs);
    }

    /** `new Cyphering(path)` then `decypher()`. The key-age check runs on a readable file
        and only while no rotation is in progress; its announcement can fail. */
    method Decypher(fs: FileSystem, path: string, today: int) returns (r: Result<string>)
      modifies this`reCypheringWaitingToBeStarted, fs`files
      ensures var check := Readable(old(fs.files), fs.failing, path) && !reCypheringInProgress &&
                           KeyDue(encryptKeyLastChange, today);
              (!check ==>
                 fs.files == old(fs.files) &&
                 reCypheringWaitingToBeStarted == old(reCypheringWaitingToBeStarted) &&
                 r == Opened(old(fs.files), fs.failing, path, encryptKey)) &&
              (check ==>
                 reCypheringWaitingToBeStarted &&
                 var (announced, o) := AnnouncedToAll(old(fs.files), fs.dirs, fs.failing, ListOfDatabases);
                 fs.files == announced &&
                 r == if o.Failed? then Err(o.error) else Opened(old(fs.files), fs.failing, path, encryptKey))
    {
      if path !in fs.files {
        return Err(CypherInvalidPathException);
      }
      var file := ReadText(fs.files, fs.failing, path);
      if file.None? || FileHandling.Falsy(file.value) {
        return Err(DatabaseAccessException);
      }
      var blob := fs.files[path];
      if !reCypheringInProgress {
        var o := CheckValidnessOfKey(fs, today);
        if o.Failed? {
          return Err(o.error);
        }
      }
      var key := KeyDecoded(encryptKey);
      if key.Err? {
        return Err(key.error);
      }
      r := Decrypt(key.value, blob);
    }

    /** `new Cyphering(path)` then `cypher(data)`: encrypt under the stored key. */
    method Cypher(fs: FileSystem, path: string, data: string) returns (o: Outcome)
      modifies fs`files
      ensures (fs.files, o) == Cyphered(old(fs.files), fs.failing, path, data, encryptKey)
    {
      if path !in fs.files {
        return Failed(CypherInvalidPathException);
      }
      var key := KeyDecoded(encryptKey);
      if key.Err? {
        return Failed(key.error);
      }
      if path in fs.failing {
        return Failed(DatabaseAccessException);
      }
      fs.files := fs.files[path := Enc(key.value, data)];
      o := Done;
    }

    /** `new Cyphering(path)` then `cypherWithDifferentKey(data, newKey)`. */
    method CypherWithDifferentKey(fs: FileSystem, path: string, data: string, newKey: seq<byte>) returns (o: Outcome)
      modifies fs`files
      ensures (fs.files, o) == CypheredWith(old(fs.files), fs.failing, path, data, newKey)
    {
      if path !in fs.files {
        return Failed(CypherInvalidPathException);
      }
      if path in fs.failing {
        return Failed(DatabaseAccessException);
      }
      fs.files := fs.files[path := Enc(newKey, data)];
      o := Done;
    }

    /** `setKey`: store the key in base 64; afterwards `getKey` gives it back. */
    method SetKey(key: seq<byte>) returns (o: Outcome)
      modifies this`encryptKey
      ensures key == [] ==> o == Failed(ParseError) && encryptKey == old(encryptKey)
      ensures key != [] ==> o == Done && encryptKey == Base64.Encode(key)
      ensures key != [] && key != [48] ==> KeyDecoded(encryptKey) == Ok(key)
    {
      var encoded := Base64.Encode(key);
      KeyRoundTrip(key);
      if FileHandling.Falsy(encoded) {
        return Failed(ParseError);
      }
      encryptKey := encoded;
      o := Done;
    }

    /** The inner `foreach` of `reCypher`: decrypt each named table of one database with
        the stored key and write it back under the new key. */
    method ReEncryptDatabase(fs: FileSystem, database: string, names: seq<string>, newKey: seq<byte>, today: int)
      returns (o: Outcome)
      requires reCypheringInProgress
      modifies this`reCypheringWaitingToBeStarted, fs`files
      ensures (fs.files, o) == ReEncryptAll(old(fs.files), fs.failing, TargetPaths(database, names), encryptKey, newKey)
      ensures reCypheringWaitingToBeStarted == old(reCypheringWaitingToBeStarted)
    {
      ghost var targets := TargetPaths(database, names);
      var j := 0;
      while j < |names|
        invariant 0 <= j <= |names|
        invariant ReEncryptAll(old(fs.files), fs.failing, targets, encryptKey, newKey)
               == ReEncryptAll(fs.files, fs.failing, targets[j..], encryptKey, newKey)
        invariant reCypheringWaitingToBeStarted == old(reCypheringWaitingToBeStarted)
      {
        var path := EntryPath(database, names[j]);
        assert targets[j..][0] == path && targets[j..][1..] == targets[j + 1..];
        var decyphered := Decypher(fs, path, today);
        if decyphered.Err? {
          return Failed(decyphered.error);
        }
        // the path was just read, so this write succeeds
        var written := CypherWithDifferentKey(fs, path, decyphered.value, newKey);
        j := j + 1;
      }
      o := Done;
    }

    /** The outer `foreach` of `reCypher`: list each database's directory and re-encrypt
        its tables, the access queue left out. */
    method RotateDatabases(fs: FileSystem, listings: seq<Option<seq<string>>>, newKey: seq<byte>, today: int)
      returns (o: Outcome)
      requires reCypheringInProgress && |listings| == |ListOfDatabases|
      modifies this`reCypheringWaitingToBeStarted, fs`files
      ensures (fs.files, o) == RotateFrom(old(fs.files), fs.failing, ListOfDatabases, listings, encryptKey, newKey)
      ensures reCypheringWaitingToBeStarted == old(reCypheringWaitingToBeStarted)
    {
      var i := 0;
      while i < |ListOfDatabases|
        invariant 0 <= i <= |ListOfDatabases|
        invariant RotateFrom(old(fs.files), fs.failing, ListOfDatabases, listings, encryptKey, newKey)
               == RotateFrom(fs.files, fs.failing, ListOfDatabases[i..], listings[i..], encryptKey, newKey)
        invariant reCypheringWaitingToBeStarted == old(reCypheringWaitingToBeStarted)
      {
        var databaseName := ListOfDatabases[i];
        var filesAll := listings[i];
        assert ListOfDatabases[i..][1..] == ListOfDatabases[i + 1..];
        assert listings[i..][1..] == listings[i + 1..];
        if filesAll.None? || filesAll.value == [] {
          return Failed(FileManipulateException);
        }
        var names := KeptNames(filesAll.value);
        o := ReEncryptDatabase(fs, databaseName, names, newKey, today);
        if o.Failed? {
          return;
        }
        i := i + 1;
      }
      o := Done;
    }

    /** The rest of `reCypher` once the archive is made: rotate every database, withdraw
        the announcements, then commit today's date and the new key. */
    method RotateAndCommit(fs: FileSystem, listings: seq<Option<seq<string>>>, newKey: seq<byte>, today: int)
      returns (o: Outcome)
      requires reCypheringInProgress && |listings| == |ListOfDatabases|
      requires |newKey| == EncryptKeyLength && !FalsyBytes(newKey)
      modifies this`reCypheringWaitingToBeStarted, this`reCypheringInProgress, this`encryptKey,
               this`encryptKeyLastChange, fs`files
      ensures reCypheringWaitingToBeStarted == old(reCypheringWaitingToBeStarted)
      ensures var (rotated, ro) := RotateFrom(old(fs.files), fs.failing, ListOfDatabases, listings,
                                              old(encryptKey), newKey);
              (ro.Failed? ==>
                 o == ro && fs.files == rotated && reCypheringInProgress &&
                 encryptKey == old(encryptKey) && encryptKeyLastChange == old(encryptKeyLastChange)) &&
              (ro == Done ==>
                 o == Done && fs.files == Withdrawn(rotated, fs.failing, ListOfDatabases) &&
                 !reCypheringInProgress && encryptKeyLastChange == today &&
                 encryptKey == Base64.Encode(newKey) && KeyDecoded(encryptKey) == Ok(newKey))
    {
      o := RotateDatabases(fs, listings, newKey, today);
      if o.Failed? {
        return;
      }
      WithdrawAnnouncements(fs);
      reCypheringInProgress := false;
      encryptKeyLastChange := today;
      o := SetKey(newKey);
    }

    /** `reCypher`: its effect is `ReCypherEffect` of the files, the archives and the
        static state it starts from. */
    method ReCypher(fs: FileSystem, env: Env) returns (o: Outcome)
      requires ValidEnv(env)
      modifies this, fs`files, fs`archives
      ensures Rotation(fs.files, fs.archives, State(), o)
           == ReCypherEffect(old(fs.files), old(fs.archives), fs.dirs, fs.failing, old(State()), env)
    {
      if !reCypheringWaitingToBeStarted {
        o := Done;
      } else {
        o := StartReCyphering(fs, env);
      }
    }

    /** The body of `reCypher` once a rotation has been asked for: take the request, draw
        the new key, back the databases up, then rotate and commit. */
    method StartReCyphering(fs: FileSystem, env: Env) returns (o: Outcome)
      requires ValidEnv(env) && reCypheringWaitingToBeStarted
      modifies this, fs`files, fs`archives
      ensures Rotation(fs.files, fs.archives, State(), o)
           == ReCypherEffect(old(fs.files), old(fs.archives), fs.dirs, fs.failing, old(State()), env)
    {
      reCypheringWaitingToBeStarted := false;
      reCypheringInProgress := true;

      var newKey := GenerateKey(EncryptKeyLength, env.keyDraws);

      var archived := ArchiveFolder(fs, DatRoot, DatBackupPath, env.now, env.archiveBuilds);
      if archived.Failed? {
        // the source notifies the administrator, clears the flag and calls die()
        reCypheringInProgress := false;
        o := Failed(ProcessHalted);
      } else {
        o := RotateAndCommit(fs, env.listings, newKey, env.today);
      }
    }
  }
}
