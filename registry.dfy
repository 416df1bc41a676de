/** The global list of active connections (`connectionsList.bin`): the id check that runs
    before a connection registers, and the removal that runs when it ends. */
module Registry {
  import opened Exceptions
  import opened RecordFormat
  import opened DatabaseStatic
  import FileHandling

  function DigitChar(d: int): char
    requires 0 <= d < 10
  {
    ('0' as int + d) as char
  }

  /** PHP's decimal text for a non-negative integer: how the drawn id is stored. */
  function IdString(n: nat): (s: string)
    ensures s != [] && forall i | 0 <= i < |s| :: '0' <= s[i] <= '9'
    ensures n >= 1 ==> s[0] != '0'
    decreases n
  {
    if n < 10 then [DigitChar(n)] else IdString(n / 10) + [DigitChar(n % 10)]
  }

  /** The stored id reads back as the number drawn. */
  lemma {:induction false} IdStringValue(n: nat)
    ensures FileHandling.AllDigits(IdString(n)) && FileHandling.Value(IdString(n)) == n
    decreases n
  {
    var s := IdString(n);
    if n >= 10 {
      IdStringValue(n / 10);
      assert s[..|s| - 1] == IdString(n / 10);
    }
  }

  /** A drawn id is a clean, non-empty field that never equals the reserved rotation id. */
  lemma {:induction false} DrawnIdIsNeverReserved(n: nat)
    requires 1 <= n
    ensures IdString(n) != SystemReCypher && IdString(n) != "" && CleanField(IdString(n))
  {
    var s := IdString(n);
    assert s[0] != SystemReCypher[0];
    assert forall i | 0 <= i < |s| :: s[i] != ';' && s[i] != '\\';
  }

  /** The id field of each row. */
  function RowIds(rows: seq<string>): (ids: seq<string>)
    ensures |ids| == |rows|
  {
    if rows == [] then [] else [Explode(FieldSeparator, rows[0])[GlobalHeadConnId]] + RowIds(rows[1..])
  }

  /** Each row's id is the first field of that row. */
  lemma {:induction false} RowIdsAt(rows: seq<string>)
    ensures forall i | 0 <= i < |rows| :: RowIds(rows)[i] == Explode(FieldSeparator, rows[i])[GlobalHeadConnId]
  {
    if rows != [] {
      RowIdsAt(rows[1..]);
      forall i | 0 <= i < |rows| ensures RowIds(rows)[i] == Explode(FieldSeparator, rows[i])[GlobalHeadConnId] {
        if i > 0 { assert rows[1..][i - 1] == rows[i]; }
      }
    }
  }

  /** What `checkIfConnectionExists` documents: whether some record of the global list
      carries `id`. */
  predicate ConnectionExists(registry: string, id: string)
  {
    id in RowIds(Explode(Terminator, registry))
  }

  /** On a list of clean records the documented check asks exactly whether some record
      carries the id. */
  lemma {:induction false} ConnectionExistsOfRecords(rs: seq<Record>, id: string)
    requires AllClean(rs) && id != ""
    ensures ConnectionExists(Serialize(rs), id) <==> exists k | 0 <= k < |rs| :: rs[k].id == id
  {
    LinesOfSerialize(rs);
    var rows := Lines(rs) + [""];
    var ids := RowIds(rows);
    RowIdsAt(rows);
    assert Explode(FieldSeparator, "") == [""];
    assert ids[|rs|] == "";
    forall k | 0 <= k < |rs| ensures ids[k] == rs[k].id {
      assert rows[k] == Line(rs[k]);
      FieldsOfLine(rs[k]);
    }
    if id in ids {
      var k :| 0 <= k < |ids| && ids[k] == id;
      assert k < |rs|;
      assert rs[k].id == id;
    }
    if exists k | 0 <= k < |rs| :: rs[k].id == id {
      var k :| 0 <= k < |rs| && rs[k].id == id;
      assert ids[k] == id;
    }
  }

  /** No two records share an id. */
  predicate UniqueIds(rs: seq<Record>)
  {
    forall i, j | 0 <= i < j < |rs| :: rs[i].id != rs[j].id
  }

  /** Registering an id that the documented check reports free keeps the ids of active
      connections distinct, and the appended entry extends the list. */
  lemma {:induction false} RegisteringKeepsIdsUnique(rs: seq<Record>, r: Record)
    requires AllClean(rs) && r.id != "" && UniqueIds(rs)
    requires !ConnectionExists(Serialize(rs), r.id)
    ensures UniqueIds(rs + [r])
    ensures Serialize(rs + [r]) == Serialize(rs) + Entry(r)
  {
    ConnectionExistsOfRecords(rs, r.id);
    SerializeAppend(rs, r);
    var rs' := rs + [r];
    forall i, j | 0 <= i < j < |rs'| ensures rs'[i].id != rs'[j].id {
      if j == |rs| {
        assert rs'[i] == rs[i];
      } else {
        assert rs'[i] == rs[i] && rs'[j] == rs[j];
      }
    }
  }

  /** `checkIfConnectionExists` as written. Its loop runs only while `fgets` returns a
      falsy value, so a readable first line ends it at once with "free". `fgets` reads up
      to a real line break, which the list never holds, so the first line is the whole
      text. On an empty list `fgets` returns false forever and the loop never ends (None). */
  function IdCheckAsWritten(registry: string, id: string): Option<bool>
  {
    if !FileHandling.Falsy(registry) then Some(false)
    else if id == "" || (registry == "0" && id == "0") then Some(true)
    else None
  }

  /** The check as written reports a taken id as free on every non-empty list. */
  lemma {:induction false} IdCheckAsWrittenMissesTakenIds(rs: seq<Record>, k: nat)
    requires AllClean(rs) && k < |rs| && rs[k].id != ""
    ensures ConnectionExists(Serialize(rs), rs[k].id)
    ensures IdCheckAsWritten(Serialize(rs), rs[k].id) == Some(false)
  {
    ConnectionExistsOfRecords(rs, rs[k].id);
    assert exists j | 0 <= j < |rs| :: rs[j].id == rs[k].id by {
      assert 0 <= k < |rs| && rs[k].id == rs[k].id;
    }
    var s := Serialize(rs);
    assert s == Entry(rs[0]) + Serialize(rs[1..]);
    assert |Entry(rs[0])| >= |Terminator| + 2;
    assert |s| >= 2;
  }

  /** The check as written never returns on an empty list, whatever id was drawn. */
  lemma {:induction false} IdCheckAsWrittenSpinsOnEmptyList(n: nat)
    requires n >= 1
    ensures IdCheckAsWritten("", IdString(n)) == None
  {
  }

  /** PHP `str_replace($search, "", $subject)`: every occurrence, scanned left to right
      without overlap, is cut out. */
  function StrReplaceRemove(subject: string, search: string): string
    requires search != []
    decreases |subject|
  {
    if |subject| < |search| then subject
    else if subject[..|search|] == search then StrReplaceRemove(subject[|search|..], search)
    else [subject[0]] + StrReplaceRemove(subject[1..], search)
  }

  /** Removing connection 12 as written also cuts the end off connection 312's record,
      leaving a stray "3" that runs into the next record. */
  lemma {:induction false} StrReplaceCutsLongerIds()
    ensures StrReplaceRemove(Entry(Record("312", "r", "main")), Entry(Record("12", "r", "main"))) == "3"
    ensures RemoveRecord(Serialize([Record("312", "r", "main")]), Record("12", "r", "main"))
         == Serialize([Record("312", "r", "main")])
  {
    var other := Entry(Record("312", "r", "main"));
    var mine := Entry(Record("12", "r", "main"));
    assert other == "312;r;main\\n" && mine == "12;r;main\\n";
    assert other[..|mine|] != mine by { assert other[..|mine|][0] != mine[0]; }
    assert other[1..] == mine by {
      assert |other[1..]| == |mine|;
      forall i | 0 <= i < |mine| ensures other[1..][i] == mine[i] { assert other[1..][i] == other[i + 1]; }
    }
    assert mine[..|mine|] == mine;
    assert mine[|mine|..] == "";
    assert StrReplaceRemove(other[1..], mine) == StrReplaceRemove("", mine);
    assert StrReplaceRemove(other, mine) == "3" + StrReplaceRemove(other[1..], mine);
    RemoveRecordOfRecords([Record("312", "r", "main")], Record("12", "r", "main"));
    assert Without([Record("312", "r", "main")], Record("12", "r", "main")) == [Record("312", "r", "main")];
  }

  /** The rows that are not `line`, in order. */
  function KeepOthers(rows: seq<string>, line: string): seq<string>
  {
    if rows == [] then []
    else if rows[0] == line then KeepOthers(rows[1..], line)
    else [rows[0]] + KeepOthers(rows[1..], line)
  }

  /** The records other than `r`, in order. */
  function Without(rs: seq<Record>, r: Record): (w: seq<Record>)
    ensures forall x :: x in w <==> x in rs && x != r
    ensures |w| <= |rs|
  {
    if rs == [] then []
    else if rs[0] == r then Without(rs[1..], r)
    else [rs[0]] + Without(rs[1..], r)
  }

  /** The removal the destructor intends: drop the records whose whole line is the
      connection's own, and keep every other record as it was. */
  function RemoveRecord(registry: string, r: Record): string
  {
    var kept := KeepOthers(Explode(Terminator, registry), Line(r));
    if kept == [] then "" else Implode(Terminator, kept)
  }

  lemma {:induction false} KeepOthersOfLines(rs: seq<Record>, r: Record)
    requires AllClean(rs) && Clean(r)
    ensures KeepOthers(Lines(rs) + [""], Line(r)) == Lines(Without(rs, r)) + [""]
  {
    if rs == [] {
      assert Line(r) != "" by { assert Line(r)[|r.id|] == ';'; }
    } else {
      assert (Lines(rs) + [""])[0] == Line(rs[0]);
      assert (Lines(rs) + [""])[1..] == Lines(rs[1..]) + [""];
      assert AllClean(rs[1..]) by {
        forall i | 0 <= i < |rs[1..]| ensures Clean(rs[1..][i]) { assert rs[1..][i] == rs[i + 1]; }
      }
      KeepOthersOfLines(rs[1..], r);
      if rs[0] != r {
        assert Clean(rs[0]);
        if Line(rs[0]) == Line(r) {
          LineInjective(rs[0], r);
        }
        assert Line(rs[0]) != Line(r);
        assert Lines([rs[0]] + Without(rs[1..], r)) == [Line(rs[0])] + Lines(Without(rs[1..], r));
      }
    }
  }

  /** On a list of clean records the intended removal drops exactly the connection's own
      record and leaves every other record, in order. */
  lemma {:induction false} RemoveRecordOfRecords(rs: seq<Record>, r: Record)
    requires AllClean(rs) && Clean(r)
    ensures RemoveRecord(Serialize(rs), r) == Serialize(Without(rs, r))
  {
    LinesOfSerialize(rs);
    KeepOthersOfLines(rs, r);
    var w := Without(rs, r);
    assert AllClean(w) by {
      forall i | 0 <= i < |w| ensures Clean(w[i]) {
        assert w[i] in rs;
      }
    }
    SerializeOfLines(w);
  }

  /** The id `setSelfToGlobalConnections` settles on: the first draw that the documented
      check reports free. */
  function FirstFreeId(registry: string, draws: seq<nat>): (n: nat)
    requires exists i | 0 <= i < |draws| :: !ConnectionExists(registry, IdString(draws[i]))
    ensures exists i | 0 <= i < |draws| ::
              draws[i] == n && !ConnectionExists(registry, IdString(n)) &&
              forall j | 0 <= j < i :: ConnectionExists(registry, IdString(draws[j]))
  {
    if !ConnectionExists(registry, IdString(draws[0])) then draws[0]
    else
      var i :| 0 <= i < |draws| && !ConnectionExists(registry, IdString(draws[i]));
      assert i > 0 && !ConnectionExists(registry, IdString(draws[1..][i - 1]));
      var n := FirstFreeId(registry, draws[1..]);
      var k :| 0 <= k < |draws[1..]| && draws[1..][k] == n && !ConnectionExists(registry, IdString(n)) &&
                forall j | 0 <= j < k :: ConnectionExists(registry, IdString(draws[1..][j]));
      assert forall j | 0 <= j < k + 1 :: ConnectionExists(registry, IdString(draws[j])) by {
        forall j | 0 <= j < k + 1 ensures ConnectionExists(registry, IdString(draws[j])) {
          if j > 0 { assert draws[j] == draws[1..][j - 1]; }
        }
      }
      assert draws[k + 1] == draws[1..][k];
      n
  }

  /** The first free draw is the one `FirstFreeId` picks. */
  lemma {:induction false} FirstFreeIdAt(registry: string, draws: seq<nat>, i: nat)
    requires i < |draws| && !ConnectionExists(registry, IdString(draws[i]))
    requires forall j | 0 <= j < i :: ConnectionExists(registry, IdString(draws[j]))
    ensures FirstFreeId(registry, draws) == draws[i]
  {
    if i > 0 {
      assert !ConnectionExists(registry, IdString(draws[1..][i - 1]));
      assert forall j | 0 <= j < i - 1 :: ConnectionExists(registry, IdString(draws[1..][j])) by {
        forall j | 0 <= j < i - 1 ensures ConnectionExists(registry, IdString(draws[1..][j])) {
          assert draws[1..][j] == draws[j + 1];
        }
      }
      FirstFreeIdAt(registry, draws[1..], i - 1);
    }
  }

  /** Closing the only connection leaves an empty list, which the destructor then reports
      as a failed write. */
  lemma {:induction false} ClosingLastConnectionEmptiesList(r: Record)
    requires Clean(r)
    ensures RemoveRecord(Entry(r), r) == ""
  {
    assert [r][1..] == [];
    assert Serialize([r]) == Entry(r) + Serialize([]) == Entry(r);
    assert Without([r], r) == Without([], r) == [];
    RemoveRecordOfRecords([r], r);
  }

  lemma {:induction false} WithoutAppended(rs: seq<Record>, r: Record)
    requires r !in rs
    ensures Without(rs + [r], r) == rs
  {
    if rs == [] {
      assert [] + [r] == [r];
      assert [r][1..] == [];
    } else {
      assert (rs + [r])[0] == rs[0] && (rs + [r])[1..] == rs[1..] + [r];
      WithoutAppended(rs[1..], r);
      assert [rs[0]] + rs[1..] == rs;
    }
  }

  /** Registering and then closing a connection whose record the list did not hold gives
      back the list as it was. */
  lemma {:induction false} CloseUndoesRegister(rs: seq<Record>, r: Record)
    requires AllClean(rs) && Clean(r) && r !in rs
    ensures RemoveRecord(Serialize(rs) + Entry(r), r) == Serialize(rs)
  {
    SerializeAppend(rs, r);
    assert AllClean(rs + [r]) by {
      forall i | 0 <= i < |rs + [r]| ensures Clean((rs + [r])[i]) {
        if i < |rs| { assert (rs + [r])[i] == rs[i]; }
      }
    }
    RemoveRecordOfRecords(rs + [r], r);
    WithoutAppended(rs, r);
  }

  /** A record whose id the documented check reports free is not yet in the list. */
  lemma {:induction false} FreeIdIsNotListed(rs: seq<Record>, r: Record)
    requires AllClean(rs) && r.id != "" && !ConnectionExists(Serialize(rs), r.id)
    ensures r !in rs
  {
    ConnectionExistsOfRecords(rs, r.id);
  }
}
