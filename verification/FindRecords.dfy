/**
 * Directory listings over ssh: `find -printf` records separated by RS, with
 * fields separated by US (crates/backr-core/src/backup/ssh.rs).
 */
module FindRecords {
  import opened Wrappers
  import opened Text

  const RS: char := 0x1E as char
  const US: char := 0x1F as char

  /** What `find` prints for one directory entry. */
  datatype FindRow = FindRow(fileType: char, size: nat, mtime: string, name: string)

  /** What the daemon makes of it; the modification time is a parsed float. */
  datatype RemoteFindEntry<T> = RemoteFindEntry(fileType: char, size: nat, mtime: T, name: string)

  // ------------------------------------------------------------------
  // Parsing
  // ------------------------------------------------------------------

  /** `s.splitn(n, sep)`: the last part keeps its separators. */
  function SplitN(s: string, n: nat, sep: char): (parts: seq<string>)
    requires n > 0
    ensures 1 <= |parts| <= n
    decreases |s|
  {
    if n == 1 || s == "" then [s]
    else if s[0] == sep then [""] + SplitN(s[1..], n - 1, sep)
    else
      var rest := SplitN(s[1..], n, sep);
      [[s[0]] + rest[0]] + rest[1..]
  }

  datatype Parsed<T> = Skip | Row(entry: RemoteFindEntry<T>) | Malformed(message: string)

  function ParseRecord<T>(parseTime: string -> Option<T>, raw: string): Parsed<T> {
    var record := TrimEnd(raw);
    if record == "" then Skip
    else
      var cols := SplitN(record, 4, US);
      if |cols| < 4 then Malformed("malformed find row")
      else if cols[3] == "" || cols[3] == "." || cols[3] == ".." then Skip
      else if cols[0] == "" then Malformed("missing file type")
      else
        match (ParseU64(cols[1]), parseTime(cols[2]))
        case (None, _) => Malformed("invalid size in find output")
        case (_, None) => Malformed("invalid mtime in find output")
        case (Some(size), Some(mtime)) => Row(RemoteFindEntry(cols[0][0], size, mtime, cols[3]))
  }

  /** All records in order, up to the first malformed one. */
  function ParseRecords<T>(parseTime: string -> Option<T>, records: seq<string>)
    : Result<seq<RemoteFindEntry<T>>, string>
  {
    if records == [] then Ok([])
    else
      match ParseRecord(parseTime, records[0])
      case Malformed(message) => Err(message)
      case Skip => ParseRecords(parseTime, records[1..])
      case Row(entry) =>
        var rest :- ParseRecords(parseTime, records[1..]);
        Ok([entry] + rest)
  }

  function Prepended<T>(pushed: seq<RemoteFindEntry<T>>, rest: Result<seq<RemoteFindEntry<T>>, string>)
    : Result<seq<RemoteFindEntry<T>>, string>
  {
    match rest
    case Err(message) => Err(message)
    case Ok(rows) => Ok(pushed + rows)
  }

  /** What one more parsed record adds to the rows pushed so far. */
  lemma ParseStep<T>(
      parseTime: string -> Option<T>, pushed: seq<RemoteFindEntry<T>>, records: seq<string>)
    requires records != []
    ensures var parsed := ParseRecord(parseTime, records[0]);
      Prepended(pushed, ParseRecords(parseTime, records)) ==
        match parsed
        case Malformed(message) => Err(message)
        case Skip => Prepended(pushed, ParseRecords(parseTime, records[1..]))
        case Row(entry) => Prepended(pushed + [entry], ParseRecords(parseTime, records[1..]))
  {
    var parsed, rest := ParseRecord(parseTime, records[0]), ParseRecords(parseTime, records[1..]);
    if parsed.Row? && rest.Ok? {
      assert pushed + ([parsed.entry] + rest.value) == pushed + [parsed.entry] + rest.value;
    }
  }

  lemma PrependedNothing<T>(rest: Result<seq<RemoteFindEntry<T>>, string>)
    ensures Prepended([], rest) == rest
  {
    if rest.Ok? {
      assert [] + rest.value == rest.value;
    }
  }

  /** The loop of `remote_list_children` over the captured output. */
  method ListChildren<T>(parseTime: string -> Option<T>, stdout: string)
    returns (rows: Result<seq<RemoteFindEntry<T>>, string>)
    ensures rows == ParseRecords(parseTime, Split(Trim(stdout), RS))
  {
    var records := Split(Trim(stdout), RS);
    ghost var whole := ParseRecords(parseTime, records);
    var pushed: seq<RemoteFindEntry<T>> := [];
    PrependedNothing(whole);
    var remaining := records;
    while remaining != []
      invariant whole == Prepended(pushed, ParseRecords(parseTime, remaining))
      decreases |remaining|
    {
      ParseStep(parseTime, pushed, remaining);
      var parsed := ParseRecord(parseTime, remaining[0]);
      if parsed.Malformed? {
        return Err(parsed.message);
      }
      if parsed.Row? {
        pushed := pushed + [parsed.entry];
      }
      remaining := remaining[1..];
    }
    assert pushed + [] == pushed;
    return Ok(pushed);
  }

  // ------------------------------------------------------------------
  // Printing
  // ------------------------------------------------------------------

  /** `-printf "%y\x1f%s\x1f%T@\x1f%f"`. */
  function PrintRow(row: FindRow): string {
    [row.fileType] + [US] + PrintNat(row.size) + [US] + row.mtime + [US] + row.name
  }

  /** `-printf "...\x1e"`: every record ends with RS. */
  function Records(records: seq<string>): string {
    if records == [] then "" else records[0] + [RS] + Records(records[1..])
  }

  /** The output of `find`. */
  function PrintRows(rows: seq<FindRow>): string {
    Records(PrintEach(rows))
  }

  function PrintEach(rows: seq<FindRow>): (r: seq<string>)
    ensures |r| == |rows| && forall i :: 0 <= i < |rows| ==> r[i] == PrintRow(rows[i])
  {
    seq(|rows|, i requires 0 <= i < |rows| => PrintRow(rows[i]))
  }

  /** A row as `find` can print it, for a name without RS. */
  ghost predicate Printable<T>(parseTime: string -> Option<T>, row: FindRow) {
    && !IsWhitespace(row.fileType) && row.fileType != RS && row.fileType != US
    && row.size <= U64_MAX
    && RS !in row.mtime && US !in row.mtime && parseTime(row.mtime).Some?
    && RS !in row.name
  }

  /** The entry that survives the trip: trailing white space of the name is lost. */
  ghost function Survivor<T>(parseTime: string -> Option<T>, row: FindRow): seq<RemoteFindEntry<T>>
  {
    var name := TrimEnd(row.name);
    if parseTime(row.mtime).None? || name == "" || name == "." || name == ".." then []
    else [RemoteFindEntry(row.fileType, row.size, parseTime(row.mtime).value, name)]
  }

  ghost function Survivors<T>(parseTime: string -> Option<T>, rows: seq<FindRow>): seq<RemoteFindEntry<T>>
  {
    if rows == [] then [] else Survivor(parseTime, rows[0]) + Survivors(parseTime, rows[1..])
  }

  ghost function Exact<T>(parseTime: string -> Option<T>, rows: seq<FindRow>): (r: seq<RemoteFindEntry<T>>)
    requires forall i :: 0 <= i < |rows| ==> parseTime(rows[i].mtime).Some?
    ensures |r| == |rows|
  {
    seq(|rows|, i requires 0 <= i < |rows| =>
      RemoteFindEntry(rows[i].fileType, rows[i].size, parseTime(rows[i].mtime).value, rows[i].name))
  }

  // ------------------------------------------------------------------
  // The round trip
  // ------------------------------------------------------------------

  lemma {:induction false} SplitNField(field: string, rest: string, n: nat, sep: char)
    requires n > 1 && sep !in field
    ensures SplitN(field + [sep] + rest, n, sep) == [field] + SplitN(rest, n - 1, sep)
  {
    if field == "" {
      assert field + [sep] + rest == [sep] + rest;
    } else {
      assert (field + [sep] + rest)[1..] == field[1..] + [sep] + rest;
      SplitNField(field[1..], rest, n, sep);
      assert [field[0]] + field[1..] == field;
    }
  }

  lemma {:induction false} TrimEndKeepsPrefix(prefix: string, s: string)
    requires prefix != "" && !IsWhitespace(prefix[|prefix| - 1])
    ensures TrimEnd(prefix + s) == prefix + TrimEnd(s)
  {
    if s != "" && IsWhitespace(s[|s| - 1]) {
      assert (prefix + s)[..|prefix + s| - 1] == prefix + s[..|s| - 1];
      TrimEndKeepsPrefix(prefix, s[..|s| - 1]);
    } else if s == "" {
      assert prefix + s == prefix;
    }
  }

  lemma DigitsAreNotSeparators(n: nat)
    ensures RS !in PrintNat(n) && US !in PrintNat(n)
  {
    assert forall i :: 0 <= i < |PrintNat(n)| ==> IsDigit(PrintNat(n)[i]);
  }

  lemma FourFields(a: string, b: string, c: string, d: string)
    requires US !in a && US !in b && US !in c
    ensures SplitN(a + [US] + b + [US] + c + [US] + d, 4, US) == [a, b, c, d]
  {
    assert a + [US] + b + [US] + c + [US] + d == a + [US] + (b + [US] + (c + [US] + d));
    SplitNField(a, b + [US] + (c + [US] + d), 4, US);
    SplitNField(b, c + [US] + d, 3, US);
    SplitNField(c, d, 2, US);
  }

  lemma PrintedRecordTrims(row: FindRow)
    ensures TrimEnd(PrintRow(row)) == PrintRow(row.(name := TrimEnd(row.name)))
    ensures PrintRow(row) != ""
  {
    TrimEndKeepsPrefix([row.fileType] + [US] + PrintNat(row.size) + [US] + row.mtime + [US], row.name);
  }

  lemma PrintedRecordParses<T>(parseTime: string -> Option<T>, row: FindRow)
    requires Printable(parseTime, row)
    ensures ParseRecord(parseTime, PrintRow(row)) ==
      if Survivor(parseTime, row) == [] then Skip else Row(Survivor(parseTime, row)[0])
  {
    PrintedRecordTrims(row);
    DigitsAreNotSeparators(row.size);
    FourFields([row.fileType], PrintNat(row.size), row.mtime, TrimEnd(row.name));
    ParsePrintU64(row.size);
    assert PrintRow(row.(name := TrimEnd(row.name))) != "";
  }

  lemma PrintedRecordHasNoRS<T>(parseTime: string -> Option<T>, row: FindRow)
    requires Printable(parseTime, row)
    ensures RS !in PrintRow(row)
  {
    DigitsAreNotSeparators(row.size);
  }

  lemma {:induction false} RecordsSplit(records: seq<string>)
    requires forall i :: 0 <= i < |records| ==> RS !in records[i]
    ensures Split(Records(records), RS) == records + [""]
  {
    if records != [] {
      RecordsSplit(records[1..]);
      SplitAtSeparator(records[0], RS, Records(records[1..]));
      SplitWithoutSeparator(records[0], RS);
    }
  }

  lemma {:induction false} RecordsEnd(records: seq<string>)
    requires records != []
    ensures Records(records) != "" && Records(records)[|Records(records)| - 1] == RS
  {
    if |records| > 1 {
      RecordsEnd(records[1..]);
    } else {
      assert Records(records[1..]) == "";
    }
  }

  lemma {:induction false} PrintedRecordsParse<T>(parseTime: string -> Option<T>, rows: seq<FindRow>)
    requires forall i :: 0 <= i < |rows| ==> Printable(parseTime, rows[i])
    ensures ParseRecords(parseTime, PrintEach(rows) + [""]) ==
      Ok(Survivors(parseTime, rows))
  {
    var records := PrintEach(rows) + [""];
    if rows == [] {
      assert records[1..] == [];
    } else {
      assert records[1..] == PrintEach(rows[1..]) + [""];
      PrintedRecordParses(parseTime, rows[0]);
      PrintedRecordsParse(parseTime, rows[1..]);
      assert records[0] == PrintRow(rows[0]);
      var head, tail := Survivor(parseTime, rows[0]), Survivors(parseTime, rows[1..]);
      assert if head == [] then head + tail == tail else head == [head[0]];
    }
  }

  /** Output that begins with a file type and ends with RS is left alone by trimming. */
  lemma PrintedRowBegins(row: FindRow)
    ensures PrintRow(row) != "" && PrintRow(row)[0] == row.fileType
  {
  }

  /** Output that does not begin with white space is trimmed, as it ends with RS. */
  lemma RecordsAreTrimmed(records: seq<string>)
    requires records != [] ==> records[0] != "" && !IsWhitespace(records[0][0])
    ensures Trim(Records(records)) == Records(records)
  {
    if records != [] {
      RecordsEnd(records);
      assert Records(records)[0] == records[0][0];
    }
    TrimOfTrimmed(Records(records));
  }

  /**
   * Parsing what `find` printed gives back every entry, in order, under its name
   * without trailing white space.
   */
  lemma ListingRoundTrip<T>(parseTime: string -> Option<T>, rows: seq<FindRow>)
    requires forall i :: 0 <= i < |rows| ==> Printable(parseTime, rows[i])
    ensures ParseRecords(parseTime, Split(Trim(PrintRows(rows)), RS)) == Ok(Survivors(parseTime, rows))
  {
    forall i | 0 <= i < |rows| ensures RS !in PrintRow(rows[i]) {
      PrintedRecordHasNoRS(parseTime, rows[i]);
    }
    if rows != [] {
      PrintedRowBegins(rows[0]);
    }
    RecordsAreTrimmed(PrintEach(rows));
    RecordsSplit(PrintEach(rows));
    PrintedRecordsParse(parseTime, rows);
  }

  ghost predicate Faithful(row: FindRow) {
    TrimEnd(row.name) == row.name && row.name !in {"", ".", ".."}
  }

  /**
   * The listing is exact if and only if no name is empty, "." or ".." or ends in
   * white space; it may well contain US.
   */
  lemma {:induction false} ListingIsExactIff<T>(parseTime: string -> Option<T>, rows: seq<FindRow>)
    requires forall i :: 0 <= i < |rows| ==> parseTime(rows[i].mtime).Some?
    ensures |Survivors(parseTime, rows)| <= |rows|
    ensures Survivors(parseTime, rows) == Exact(parseTime, rows) <==>
      forall i :: 0 <= i < |rows| ==> Faithful(rows[i])
  {
    if rows != [] {
      ListingIsExactIff(parseTime, rows[1..]);
      var head, tail := Survivor(parseTime, rows[0]), Survivors(parseTime, rows[1..]);
      assert Exact(parseTime, rows)[1..] == Exact(parseTime, rows[1..]);
      assert (forall i :: 0 <= i < |rows| ==> Faithful(rows[i])) <==>
        Faithful(rows[0]) && forall i :: 0 <= i < |rows[1..]| ==> Faithful(rows[1..][i]);
      if |head| == 1 {
        assert (head + tail)[0] == head[0] && (head + tail)[1..] == tail;
      }
    }
  }
}
