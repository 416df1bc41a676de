/** The flat text format shared by the global connection list and every database's access
    queue: records `a;b;c`, each followed by a terminator. The terminator is PHP's
    single-quoted '\n', which is the two characters backslash and `n`, not a line break. */
module RecordFormat {
  import opened Exceptions

  /** Backslash followed by `n`. */
  const Terminator: string := "\\n"
  const FieldSeparator: string := ";"

  /** PHP `explode`: the pieces of `s` between the occurrences of `delim`, scanned left to
      right; there is always at least one piece. */
  function Explode(delim: string, s: string): (parts: seq<string>)
    requires delim != []
    ensures |parts| >= 1
    decreases |s|
  {
    if |s| < |delim| then [s]
    else if s[..|delim|] == delim then [""] + Explode(delim, s[|delim|..])
    else
      var rest := Explode(delim, s[1..]);
      [[s[0]] + rest[0]] + rest[1..]
  }

  /** PHP `implode`: the pieces joined with `delim`. */
  function Implode(delim: string, parts: seq<string>): string
    requires |parts| >= 1
    decreases |parts|
  {
    if |parts| == 1 then parts[0] else parts[0] + delim + Implode(delim, parts[1..])
  }

  /** Prefixing the first piece prefixes the joined text. */
  lemma {:induction false} ImplodePrefixFirst(delim: string, c: string, parts: seq<string>)
    requires |parts| >= 1
    ensures Implode(delim, [c + parts[0]] + parts[1..]) == c + Implode(delim, parts)
  {
    var q := [c + parts[0]] + parts[1..];
    if |parts| > 1 {
      assert q[1..] == parts[1..];
    }
  }

  /** Joining the pieces of a split gives back the text, whatever the text holds. */
  lemma {:induction false} ImplodeExplode(delim: string, s: string)
    requires delim != []
    ensures Implode(delim, Explode(delim, s)) == s
    decreases |s|
  {
    if |s| < |delim| {
    } else if s[..|delim|] == delim {
      ImplodeExplode(delim, s[|delim|..]);
      ImplodeExplodeAtDelimiter(delim, s);
    } else {
      ImplodeExplode(delim, s[1..]);
      ImplodeExplodeAtCharacter(delim, s);
    }
  }

  /** The step of `ImplodeExplode` for text that starts with the delimiter. */
  lemma {:induction false} ImplodeExplodeAtDelimiter(delim: string, s: string)
    requires delim != [] && |delim| <= |s| && s[..|delim|] == delim
    requires Implode(delim, Explode(delim, s[|delim|..])) == s[|delim|..]
    ensures Implode(delim, Explode(delim, s)) == s
  {
    var rest := Explode(delim, s[|delim|..]);
    assert Explode(delim, s) == [""] + rest;
    assert ([""] + rest)[1..] == rest;
    assert Implode(delim, [""] + rest) == "" + delim + Implode(delim, rest);
    assert s == delim + s[|delim|..];
  }

  /** The step of `ImplodeExplode` for text that does not start with the delimiter. */
  lemma {:induction false} ImplodeExplodeAtCharacter(delim: string, s: string)
    requires delim != [] && |delim| <= |s| && s[..|delim|] != delim
    requires Implode(delim, Explode(delim, s[1..])) == s[1..]
    ensures Implode(delim, Explode(delim, s)) == s
  {
    var rest := Explode(delim, s[1..]);
    assert Explode(delim, s) == [[s[0]] + rest[0]] + rest[1..];
    ImplodePrefixFirst(delim, [s[0]], rest);
    assert s == [s[0]] + s[1..];
  }

  /** Text in which the delimiter's first character does not occur is a single piece. */
  lemma {:induction false} ExplodeWithoutDelimiter(delim: string, p: string)
    requires delim != [] && delim[0] !in p
    ensures Explode(delim, p) == [p]
    decreases |p|
  {
    if |p| >= |delim| {
      assert p[..|delim|][0] == p[0] != delim[0];
      ExplodeWithoutDelimiter(delim, p[1..]);
      assert [p[0]] + p[1..] == p;
    }
  }

  /** A piece free of the delimiter's first character, then the delimiter, splits off as the
      first piece. */
  lemma {:induction false} ExplodeFront(delim: string, p: string, rest: string)
    requires delim != [] && delim[0] !in p
    ensures Explode(delim, p + delim + rest) == [p] + Explode(delim, rest)
    decreases |p|
  {
    var s := p + delim + rest;
    if p == [] {
      assert s[..|delim|] == delim && s[|delim|..] == rest;
    } else {
      assert s[..|delim|][0] == p[0] != delim[0];
      assert s[1..] == p[1..] + delim + rest;
      ExplodeFront(delim, p[1..], rest);
      assert [p[0]] + p[1..] == p;
    }
  }

  /** One record: a connection id, a mode, and a database name (global list) or a table
      name (access queue). */
  datatype Record = Record(id: string, mode: string, name: string)

  /** `id;mode;name`, without the terminator. */
  function Line(r: Record): string
  {
    r.id + FieldSeparator + r.mode + FieldSeparator + r.name
  }

  /** The exact string appended to a file for `r`. */
  function Entry(r: Record): string
  {
    Line(r) + Terminator
  }

  /** A whole file holding `rs` in order. */
  function Serialize(rs: seq<Record>): string
  {
    if rs == [] then "" else Entry(rs[0]) + Serialize(rs[1..])
  }

  function Lines(rs: seq<Record>): (ls: seq<string>)
    ensures |ls| == |rs| && forall i | 0 <= i < |rs| :: ls[i] == Line(rs[i])
  {
    if rs == [] then [] else [Line(rs[0])] + Lines(rs[1..])
  }

  /** A field that contains neither separator character. */
  predicate CleanField(f: string)
  {
    ';' !in f && '\\' !in f
  }

  predicate Clean(r: Record)
  {
    CleanField(r.id) && CleanField(r.mode) && CleanField(r.name)
  }

  predicate AllClean(rs: seq<Record>)
  {
    forall i | 0 <= i < |rs| :: Clean(rs[i])
  }

  /** Splitting a clean record's line on `;` gives back its three fields. */
  lemma {:induction false} FieldsOfLine(r: Record)
    requires Clean(r)
    ensures Explode(FieldSeparator, Line(r)) == [r.id, r.mode, r.name]
  {
    ExplodeFront(FieldSeparator, r.id, r.mode + FieldSeparator + r.name);
    assert Line(r) == r.id + FieldSeparator + (r.mode + FieldSeparator + r.name);
    ExplodeFront(FieldSeparator, r.mode, r.name);
    ExplodeWithoutDelimiter(FieldSeparator, r.name);
  }

  /** Clean records are told apart by their lines. */
  lemma {:induction false} LineInjective(a: Record, b: Record)
    requires Clean(a) && Clean(b) && Line(a) == Line(b)
    ensures a == b
  {
    FieldsOfLine(a);
    FieldsOfLine(b);
  }

  /** Splitting a file of clean records on the terminator gives their lines, then one empty
      piece after the last terminator. */
  lemma {:induction false} LinesOfSerialize(rs: seq<Record>)
    requires AllClean(rs)
    ensures Explode(Terminator, Serialize(rs)) == Lines(rs) + [""]
  {
    if rs == [] {
    } else {
      var r := rs[0];
      assert Clean(r);
      assert '\\' !in Line(r);
      assert Serialize(rs) == Line(r) + Terminator + Serialize(rs[1..]);
      ExplodeFront(Terminator, Line(r), Serialize(rs[1..]));
      assert AllClean(rs[1..]) by {
        forall i | 0 <= i < |rs[1..]| ensures Clean(rs[1..][i]) { assert rs[1..][i] == rs[i + 1]; }
      }
      LinesOfSerialize(rs[1..]);
    }
  }

  /** Joining the lines of clean records, with the trailing empty piece, gives their file. */
  lemma {:induction false} SerializeOfLines(rs: seq<Record>)
    requires AllClean(rs)
    ensures Implode(Terminator, Lines(rs) + [""]) == Serialize(rs)
  {
    LinesOfSerialize(rs);
    ImplodeExplode(Terminator, Serialize(rs));
  }

  /** Appending an entry to a file of records is the file of the records plus one. */
  lemma {:induction false} SerializeAppend(rs: seq<Record>, r: Record)
    ensures Serialize(rs + [r]) == Serialize(rs) + Entry(r)
  {
    if rs == [] {
      assert [] + [r] == [r];
    } else {
      assert (rs + [r])[1..] == rs[1..] + [r];
      SerializeAppend(rs[1..], r);
    }
  }

  /** PHP array indexing on a split: the piece at `i`, or null past the end. */
  function FieldAt(parts: seq<string>, i: nat): (f: Option<string>)
    ensures f.Some? <==> i < |parts|
    ensures f.Some? ==> f.value == parts[i]
  {
    if i < |parts| then Some(parts[i]) else None
  }

  /** Indexing the split line of a clean record gives its id, mode and name at 0, 1 and 2,
      and null past them. */
  lemma {:induction false} FieldsAtOfLine(r: Record)
    requires Clean(r)
    ensures var parts := Explode(FieldSeparator, Line(r));
            FieldAt(parts, 0) == Some(r.id) && FieldAt(parts, 1) == Some(r.mode) &&
            FieldAt(parts, 2) == Some(r.name) && FieldAt(parts, 3) == None
  {
    FieldsOfLine(r);
  }
}
