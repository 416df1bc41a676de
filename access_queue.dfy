/** The decision at the heart of `Database::checkIfUsed`: reading a database's access
    queue, is the caller's access to a table blocked? The queue is scanned in file order
    and the first record that speaks to the caller decides. */
module AccessQueue {
  import opened Exceptions
  import opened RecordFormat
  import opened DatabaseStatic
  import opened FileHandling

  datatype Verdict =
    | RotationPending   // the queue starts with the rotation announcement: rotate, report blocked
    | Blocked           // another connection's record for the table comes first
    | Free              // the caller's own record, or no record for the table, comes first

  /** The `foreach` over the queue's records, with its two early returns. A record with
      fewer than three fields has no table (PHP reads null there). */
  function ScanRows(rows: seq<string>, id: string, table: string): bool
  {
    if rows == [] then false
    else
      var values := Explode(FieldSeparator, rows[0]);
      if values[LocalHeadConnId] == id then false
      else if FieldAt(values, LocalHeadConnFile) == Some(table) then true
      else ScanRows(rows[1..], id, table)
  }

  /** The whole check on the queue file's text. `explode` always yields at least one
      record, so the source's `count($records) != null` guard always holds. */
  function QueueVerdict(queue: string, id: string, table: string): Verdict
  {
    var records := Explode(Terminator, queue);
    if Explode(FieldSeparator, records[0])[LocalHeadConnId] == SystemReCypher then RotationPending
    else if ScanRows(records, id, table) then Blocked
    else Free
  }

  /** The same scan over parsed records. */
  function Blocks(rs: seq<Record>, id: string, table: string): bool
  {
    if rs == [] then false
    else if rs[0].id == id then false
    else if rs[0].name == table then true
    else Blocks(rs[1..], id, table)
  }

  /** Reference meaning of "blocked": some record of another connection names the table,
      and every record before it names neither the caller nor the table. */
  ghost predicate ConflictFirst(rs: seq<Record>, id: string, table: string)
  {
    exists k | 0 <= k < |rs| ::
      rs[k].name == table && rs[k].id != id &&
      forall j | 0 <= j < k :: rs[j].id != id && rs[j].name != table
  }

  /** The scan reports blocked exactly when a conflicting record comes first. */
  lemma {:induction false} BlocksIffConflictFirst(rs: seq<Record>, id: string, table: string)
    ensures Blocks(rs, id, table) <==> ConflictFirst(rs, id, table)
  {
    if rs == [] {
    } else if rs[0].id == id {
      forall k | 0 <= k < |rs| && rs[k].name == table && rs[k].id != id
        ensures !(forall j | 0 <= j < k :: rs[j].id != id && rs[j].name != table)
      {
        assert 0 < k && rs[0].id == id;
      }
    } else if rs[0].name == table {
      assert ConflictFirst(rs, id, table) by {
        assert rs[0].name == table && rs[0].id != id;
      }
    } else {
      BlocksIffConflictFirst(rs[1..], id, table);
      ConflictFirstTail(rs, id, table);
    }
  }

  /** A record naming neither the caller nor the table can be skipped. */
  lemma {:induction false} ConflictFirstTail(rs: seq<Record>, id: string, table: string)
    requires rs != [] && rs[0].id != id && rs[0].name != table
    ensures ConflictFirst(rs, id, table) <==> ConflictFirst(rs[1..], id, table)
  {
    var tail := rs[1..];
    if ConflictFirst(tail, id, table) {
      var k :| 0 <= k < |tail| && tail[k].name == table && tail[k].id != id &&
               forall j | 0 <= j < k :: tail[j].id != id && tail[j].name != table;
      forall j | 0 <= j < k + 1 ensures rs[j].id != id && rs[j].name != table {
        if j > 0 { assert rs[j] == tail[j - 1]; }
      }
      assert rs[k + 1] == tail[k];
    }
    if ConflictFirst(rs, id, table) {
      var k :| 0 <= k < |rs| && rs[k].name == table && rs[k].id != id &&
               forall j | 0 <= j < k :: rs[j].id != id && rs[j].name != table;
      forall j | 0 <= j < k - 1 ensures tail[j].id != id && tail[j].name != table {
        assert tail[j] == rs[j + 1];
      }
      assert tail[k - 1] == rs[k];
    }
  }

  /** On a well-formed queue file the raw scan is the scan over its records: the empty
      piece after the last terminator decides nothing. */
  lemma {:induction false} ScanOfRecords(rs: seq<Record>, id: string, table: string)
    requires AllClean(rs) && id != ""
    ensures ScanRows(Lines(rs) + [""], id, table) == Blocks(rs, id, table)
  {
    if rs == [] {
      assert Explode(FieldSeparator, "") == [""];
    } else {
      var rows := Lines(rs) + [""];
      assert rows[0] == Line(rs[0]);
      FieldsOfLine(rs[0]);
      assert rows[1..] == Lines(rs[1..]) + [""];
      assert AllClean(rs[1..]) by {
        forall i | 0 <= i < |rs[1..]| ensures Clean(rs[1..][i]) { assert rs[1..][i] == rs[i + 1]; }
      }
      ScanOfRecords(rs[1..], id, table);
    }
  }

  /** The verdict on a queue file that holds clean records: the announcement at the head
      wins; otherwise the record scan decides. */
  lemma {:induction false} VerdictOfRecords(rs: seq<Record>, id: string, table: string)
    requires AllClean(rs) && id != ""
    ensures QueueVerdict(Serialize(rs), id, table) ==
              if rs != [] && rs[0].id == SystemReCypher then RotationPending
              else if Blocks(rs, id, table) then Blocked
              else Free
  {
    LinesOfSerialize(rs);
    ScanOfRecords(rs, id, table);
    if rs != [] {
      FieldsOfLine(rs[0]);
    } else {
      assert Explode(FieldSeparator, "") == [""];
    }
  }

  /** Whatever else a queue holds, once the announcement is at its head every caller, for
      every table, is told to rotate and wait. */
  lemma {:induction false} AnnouncementBlocksEveryone(queue: string, id: string, table: string)
    ensures QueueVerdict(Entry(Sentinel) + queue, id, table) == RotationPending
  {
    assert Entry(Sentinel) + queue == Line(Sentinel) + Terminator + queue;
    ExplodeFront(Terminator, Line(Sentinel), queue);
    FieldsOfLine(Sentinel);
  }

  /** First come, first served: a connection whose record follows another connection's
      record for the same table, with no record of its own before, is blocked. */
  lemma {:induction false} EarlierClaimBlocks(rs: seq<Record>, a: Record, id: string, more: seq<Record>)
    requires a.id != id
    requires forall i | 0 <= i < |rs| :: rs[i].id != id
    ensures Blocks(rs + [a] + more, id, a.name)
  {
    if rs == [] {
      assert ([] + [a] + more)[0] == a;
    } else {
      assert (rs + [a] + more)[1..] == rs[1..] + [a] + more;
      EarlierClaimBlocks(rs[1..], a, id, more);
    }
  }

  /** A connection whose record comes before every other record for its table proceeds,
      whatever follows. */
  lemma {:induction false} OwnClaimFirstProceeds(rs: seq<Record>, b: Record, more: seq<Record>)
    requires forall i | 0 <= i < |rs| :: rs[i].name != b.name
    ensures !Blocks(rs + [b] + more, b.id, b.name)
  {
    if rs == [] {
      assert ([] + [b] + more)[0] == b;
    } else {
      assert (rs + [b] + more)[1..] == rs[1..] + [b] + more;
      OwnClaimFirstProceeds(rs[1..], b, more);
    }
  }

  /** Two connections queue for the same table, first `a`, then `b`: `b` waits while `a`'s
      record is there and proceeds once it is gone. */
  lemma {:induction false} FirstComeFirstServed(rs: seq<Record>, a: Record, b: Record)
    requires a.name == b.name && a.id != b.id
    requires forall i | 0 <= i < |rs| :: rs[i].name != b.name && rs[i].id != b.id
    ensures Blocks(rs + [a, b], b.id, b.name)
    ensures !Blocks(rs + [b], b.id, b.name)
  {
    EarlierClaimBlocks(rs, a, b.id, [b]);
    assert rs + [a] + [b] == rs + [a, b];
    OwnClaimFirstProceeds(rs, b, []);
    assert rs + [b] + [] == rs + [b];
  }

  /** `m` copies of the rotation announcement. */
  function Announcements(m: nat): (rs: seq<Record>)
    ensures |rs| == m && forall i | 0 <= i < m :: rs[i] == Sentinel
  {
    if m == 0 then [] else [Sentinel] + Announcements(m - 1)
  }

  /** The withdrawal the rotation needs and the source never performs: every copy of the
      announcement at the head of a queue is dropped. */
  function StripAnnouncements(queue: string): (q: string)
    ensures |q| <= |queue|
    decreases |queue|
  {
    var e := Entry(Sentinel);
    if |e| <= |queue| && queue[..|e|] == e then StripAnnouncements(queue[|e|..]) else queue
  }

  /** Text whose first field is not the reserved id does not begin with the
      announcement's entry. */
  lemma {:induction false} FirstFieldNotReserved(id: string, tail: string)
    requires ';' !in id && id != SystemReCypher
    ensures var e := Entry(Sentinel);
            var s := id + FieldSeparator + tail;
            !(|e| <= |s| && s[..|e|] == e)
  {
    var e := Entry(Sentinel);
    var s := id + FieldSeparator + tail;
    var r := SystemReCypher;
    assert e == r + FieldSeparator + (ModeWriteAndRead + FieldSeparator + SystemAll + Terminator);
    assert |r| == 6 && e[6] == ';';
    if |id| < 6 {
      assert s[|id|] == ';' && e[|id|] == r[|id|];
    } else if |id| > 6 {
      assert s[6] == id[6];
    } else {
      var k :| 0 <= k < 6 && id[k] != r[k];
      assert s[k] == id[k] && e[k] == r[k];
    }
  }

  /** A file whose first record is not the announcement does not begin with its entry. */
  lemma {:induction false} NoAnnouncementAtHead(rs: seq<Record>)
    requires AllClean(rs) && (rs != [] ==> rs[0].id != SystemReCypher)
    ensures var e := Entry(Sentinel);
            !(|e| <= |Serialize(rs)| && Serialize(rs)[..|e|] == e)
  {
    if rs != [] {
      assert Clean(rs[0]);
      var tail := rs[0].mode + FieldSeparator + rs[0].name + Terminator + Serialize(rs[1..]);
      assert Serialize(rs) == rs[0].id + FieldSeparator + tail;
      FirstFieldNotReserved(rs[0].id, tail);
    }
  }

  /** Stripping a queue that holds `m` announcements before connection records leaves
      exactly those records. */
  lemma {:induction false} StripAnnouncementsOfRecords(m: nat, rs: seq<Record>)
    requires AllClean(rs) && (rs != [] ==> rs[0].id != SystemReCypher)
    ensures StripAnnouncements(Serialize(Announcements(m) + rs)) == Serialize(rs)
  {
    var e := Entry(Sentinel);
    if m == 0 {
      assert Announcements(0) + rs == rs;
      NoAnnouncementAtHead(rs);
    } else {
      var all := Announcements(m) + rs;
      assert all[0] == Sentinel && all[1..] == Announcements(m - 1) + rs;
      var rest := Serialize(Announcements(m - 1) + rs);
      assert Serialize(all) == e + rest;
      assert (e + rest)[..|e|] == e && (e + rest)[|e|..] == rest;
      StripAnnouncementsOfRecords(m - 1, rs);
    }
  }

  /** Once withdrawn, the announcements no longer hold anyone back: a queue of connection
      records gets the verdict its records give, never a pending rotation. Connection ids
      are drawn from 1 upward, so none equals the reserved id. */
  lemma {:induction false} WithdrawnQueueIsNotPending(m: nat, rs: seq<Record>, id: string, table: string)
    requires AllClean(rs) && id != ""
    requires forall i | 0 <= i < |rs| :: rs[i].id != SystemReCypher
    ensures QueueVerdict(StripAnnouncements(Serialize(Announcements(m) + rs)), id, table)
         == if Blocks(rs, id, table) then Blocked else Free
  {
    StripAnnouncementsOfRecords(m, rs);
    VerdictOfRecords(rs, id, table);
  }

  /** One database's withdrawal: a readable plain queue loses its leading announcements;
      anything else is left alone. */
  function WithdrawnFrom(files: map<string, Blob>, failing: set<string>, database: string): map<string, Blob>
  {
    var path := QueuePath(database);
    if path in files && path !in failing && files[path].Plain?
    then files[path := Plain(StripAnnouncements(files[path].text))]
    else files
  }

  /** The withdrawal over `databases` in order. */
  function Withdrawn(files: map<string, Blob>, failing: set<string>, databases: seq<string>): (after: map<string, Blob>)
    // only plain queue texts change: no file appears or vanishes, and ciphertexts stay
    ensures after.Keys == files.Keys
    ensures forall p | p in files && files[p].Enc? :: after[p] == files[p]
    decreases |databases|
  {
    if databases == [] then files
    else Withdrawn(WithdrawnFrom(files, failing, databases[0]), failing, databases[1..])
  }

  /** The withdrawal every database's queue needs once a rotation has finished. */
  method WithdrawAnnouncements(fs: FileSystem)
    modifies fs`files
    ensures fs.files == Withdrawn(old(fs.files), fs.failing, ListOfDatabases)
  {
    var i := 0;
    while i < |ListOfDatabases|
      invariant 0 <= i <= |ListOfDatabases|
      invariant Withdrawn(old(fs.files), fs.failing, ListOfDatabases)
             == Withdrawn(fs.files, fs.failing, ListOfDatabases[i..])
    {
      var path := QueuePath(ListOfDatabases[i]);
      assert ListOfDatabases[i..][1..] == ListOfDatabases[i + 1..];
      if path in fs.files && path !in fs.failing && fs.files[path].Plain? {
        fs.files := fs.files[path := Plain(StripAnnouncements(fs.files[path].text))];
      }
      i := i + 1;
    }
  }

  /** After the withdrawal, a database's readable plain queue holds its old text without
      the leading announcements. */
  lemma {:induction false} WithdrawnQueue(files: map<string, Blob>, failing: set<string>, d: string)
    requires d in ListOfDatabases
    requires QueuePath(d) in files && QueuePath(d) !in failing && files[QueuePath(d)].Plain?
    ensures Withdrawn(files, failing, ListOfDatabases)[QueuePath(d)] == Plain(StripAnnouncements(files[QueuePath(d)].text))
  {
    var d0 := ListOfDatabases[0];
    var d1 := ListOfDatabases[1];
    assert ListOfDatabases[1..][1..] == [];
    var f1 := WithdrawnFrom(files, failing, d0);
    assert Withdrawn(files, failing, ListOfDatabases) == WithdrawnFrom(f1, failing, d1);
    QueuePathsDiffer(d0, d1);
  }
}
