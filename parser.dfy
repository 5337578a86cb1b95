/** The tabular (CSV/TSV) side of the converter: delimiter sniffing, the
    header alias table, tolerant cell coercion, timestamp probing and the
    skip-or-abort policy over data rows. */
module Parser {
  import opened Wrappers
  import opened Text
  import opened DateTimes
  import opened Records

  // ---------------------------------------------------------------- cells

  /** `parse_float_optional`: the three null markers are absent, anything else
      is whatever the `f64` parser makes of it, a failure being absent too. */
  function ParseFloatOptional(env: Env, value: String): (r: Option<real>)
    ensures r.Some? <==> value !in {"", "N/A", "null"} && env.parseFloat(value).Some?
    ensures r.Some? ==> r == env.parseFloat(value)
  {
    if value == "" || value == "N/A" || value == "null" then None
    else env.parseFloat(value)
  }

  /** The formats `parse_timestamp` probes, in order. */
  const CsvTimestampFormats: seq<String> := [
    "%Y-%m-%d %H:%M:%S",
    "%Y/%m/%d %H:%M:%S",
    "%d.%m.%Y %H:%M:%S",
    "%Y-%m-%d %H:%M:%S%.3f",
    "%Y-%m-%dT%H:%M:%S",
    "%Y-%m-%dT%H:%M:%SZ",
    "%Y-%m-%dT%H:%M:%S%.3fZ"
  ]

  /** `parse_timestamp`: empty means "now"; otherwise the first matching
      format, then whole seconds since the epoch, then an error. */
  function ParseTimestamp(env: Env, value: String): (r: Result<DateTime, String>)
    ensures value == [] ==> r == Ok(env.now)
    ensures r.Err? ==> r.error == "Unable to parse timestamp: " + value
  {
    if value == [] then Ok(env.now)
    else
      match FirstMatch(env.parseDateTime, value, CsvTimestampFormats)
      case Some(t) => Ok(t)
      case None =>
        match ParseI64(value)
        case Some(secs) =>
          (match FromTimestamp(secs)
           case Some(t) => Ok(t)
           case None => Err("Unable to parse timestamp: " + value))
        case None => Err("Unable to parse timestamp: " + value)
  }

  /** A non-empty value that format `k` matches, and no earlier format does,
      is read by format `k`. */
  lemma ParseTimestampFirstFormatWins(env: Env, value: String, k: nat)
    requires value != [] && k < |CsvTimestampFormats|
    requires MatchFormat(env.parseDateTime, value, CsvTimestampFormats[k]).Some?
    requires forall j :: 0 <= j < k ==> MatchFormat(env.parseDateTime, value, CsvTimestampFormats[j]).None?
    ensures ParseTimestamp(env, value) == Ok(MatchFormat(env.parseDateTime, value, CsvTimestampFormats[k]).value)
  {
    FirstMatchAt(env.parseDateTime, value, CsvTimestampFormats, k);
  }

  /** A non-empty value that no format matches is read as whole seconds since
      the epoch when it is an `i64` in chrono's range, and is an error otherwise. */
  lemma ParseTimestampEpochFallback(env: Env, value: String)
    requires value != []
    requires forall j :: 0 <= j < |CsvTimestampFormats| ==> MatchFormat(env.parseDateTime, value, CsvTimestampFormats[j]).None?
    ensures ParseTimestamp(env, value).Ok? <==>
              ParseI64(value).Some? && MinEpochSeconds <= ParseI64(value).value <= MaxEpochSeconds
    ensures ParseTimestamp(env, value).Ok? ==>
              ParseTimestamp(env, value).value.epochNanos == ParseI64(value).value * NanosPerSecond
  {
  }

  // ---------------------------------------------------------------- columns

  /** The alias table of `from_csv_record`: each accepted (lowercase) column
      name and the field it sets. */
  const Aliases: seq<(String, Field)> := [
    ("timestamp", Timestamp), ("time", Timestamp),
    ("longitude", Longitude), ("lon", Longitude),
    ("latitude", Latitude), ("lat", Latitude),
    ("speed", Speed),
    ("operator", OperatorName), ("operator_name", OperatorName),
    ("mcc-mnc", OperatorCode), ("operator_code", OperatorCode),
    ("cgi", Cgi),
    ("cellname", Cellname),
    ("node", Node), ("rnc", Node), ("enodeb", Node),
    ("cellid", CellId), ("cell_id", CellId),
    ("lac", Lac),
    ("networktech", NetworkTech), ("network_tech", NetworkTech), ("tech", NetworkTech),
    ("networkmode", NetworkMode), ("network_mode", NetworkMode), ("mode", NetworkMode),
    ("level", Level), ("rsrp", Level), ("rscp", Level), ("rxlevel", Level),
    ("qual", Qual), ("rsrq", Qual), ("ecno", Qual), ("rxqual", Qual),
    ("snr", Snr),
    ("cqi", Cqi),
    ("arfcn", Arfcn),
    ("dl_bitrate", DlBitrate), ("downlink_bitrate", DlBitrate),
    ("ul_bitrate", UlBitrate), ("uplink_bitrate", UlBitrate)
  ]

  /** The `match` arm a key falls into: the field of the first table entry
      with that name, if any. */
  function Lookup(table: seq<(String, Field)>, key: String): Option<Field>
  {
    if table == [] then None
    else if table[0].0 == key then Some(table[0].1)
    else Lookup(table[1..], key)
  }

  /** The field a header routes to: its lowercase looked up in the alias table. */
  function ColumnField(header: String): Option<Field>
  {
    Lookup(Aliases, ToLower(header))
  }

  /** One cell read for one field: text is taken verbatim (an empty cell
      included), numbers go through `ParseFloatOptional`, and only a
      timestamp cell can fail. */
  function CellValue(env: Env, f: Field, cell: String): (r: Result<Value, String>)
    ensures r.Ok? ==> r.value.Kind() == KindOf(f)
    ensures KindOf(f) == TextKind ==> r == Ok(TextValue(Some(cell)))
    ensures KindOf(f) == NumberKind ==> r == Ok(NumberValue(ParseFloatOptional(env, cell)))
    ensures r.Err? <==> KindOf(f) == TimeKind && ParseTimestamp(env, cell).Err?
  {
    match KindOf(f)
    case TimeKind =>
      (match ParseTimestamp(env, cell)
       case Ok(t) => Ok(TimeValue(t))
       case Err(e) => Err(e))
    case NumberKind => Ok(NumberValue(ParseFloatOptional(env, cell)))
    case TextKind => Ok(TextValue(Some(cell)))
  }

  /** The effect of cell `i` on the record built so far: a cell without a
      header, or under an unknown header, changes nothing. */
  function ApplyCell(env: Env, headers: seq<String>, rec: GNetTrackRecord, i: nat, cell: String)
    : Result<GNetTrackRecord, String>
  {
    if i < |headers| then
      match ColumnField(headers[i])
      case None => Ok(rec)
      case Some(f) =>
        (match CellValue(env, f, cell)
         case Ok(v) => Ok(Set(rec, f, v))
         case Err(e) => Err(e))
    else Ok(rec)
  }

  /** Cell `k` sits in a time column and is not a timestamp. */
  predicate BadTimestampCell(env: Env, headers: seq<String>, cells: seq<String>, k: nat)
    requires k < |cells|
  {
    k < |headers| && ColumnField(headers[k]) == Some(Timestamp) && ParseTimestamp(env, cells[k]).Err?
  }

  /** A cell fails its row exactly when it sits in a time column and is not a timestamp. */
  lemma ApplyCellFails(env: Env, headers: seq<String>, rec: GNetTrackRecord, cells: seq<String>, i: nat)
    requires i < |cells|
    ensures ApplyCell(env, headers, rec, i, cells[i]).Err? <==> BadTimestampCell(env, headers, cells, i)
  {
    if i < |headers| && ColumnField(headers[i]).Some? {
      var f := ColumnField(headers[i]).value;
      assert KindOf(f) == TimeKind <==> f == Timestamp;
    }
  }

  /** A cell that converts sets the field its column routes to and no other. */
  lemma ApplyCellSets(env: Env, headers: seq<String>, rec: GNetTrackRecord, i: nat, cell: String, f: Field)
    requires ApplyCell(env, headers, rec, i, cell).Ok?
    ensures i < |headers| && ColumnField(headers[i]) == Some(f) ==>
              CellValue(env, f, cell).Ok? && Get(ApplyCell(env, headers, rec, i, cell).value, f) == CellValue(env, f, cell).value
    ensures !(i < |headers| && ColumnField(headers[i]) == Some(f)) ==>
              Get(ApplyCell(env, headers, rec, i, cell).value, f) == Get(rec, f)
  {
  }

  /** The conversion of the first `n` cells of a row, left to right. */
  function ConvertPrefix(env: Env, headers: seq<String>, cells: seq<String>, n: nat): Result<GNetTrackRecord, String>
    requires n <= |cells|
  {
    if n == 0 then Ok(Blank(env.now))
    else
      match ConvertPrefix(env, headers, cells, n - 1)
      case Err(e) => Err(e)
      case Ok(rec) => ApplyCell(env, headers, rec, n - 1, cells[n - 1])
  }

  function ConvertRow(env: Env, headers: seq<String>, cells: seq<String>): Result<GNetTrackRecord, String>
  {
    ConvertPrefix(env, headers, cells, |cells|)
  }

  /** Once a prefix fails, the whole row fails with the same error. */
  lemma {:induction false} ConvertErrorSticks(env: Env, headers: seq<String>, cells: seq<String>, n: nat, m: nat)
    requires n <= m <= |cells|
    requires ConvertPrefix(env, headers, cells, n).Err?
    ensures ConvertPrefix(env, headers, cells, m) == ConvertPrefix(env, headers, cells, n)
  {
    if m > n {
      ConvertErrorSticks(env, headers, cells, n, m - 1);
    }
  }

  lemma ConvertPrefixNext(env: Env, headers: seq<String>, cells: seq<String>, i: nat, rec: GNetTrackRecord)
    requires i < |cells| && ConvertPrefix(env, headers, cells, i) == Ok(rec)
    ensures ConvertPrefix(env, headers, cells, i + 1) == ApplyCell(env, headers, rec, i, cells[i])
  {
  }

  /** One pass of the `from_csv_record` loop: the cell under header `i`,
      routed by the lowercased header and converted for its field. */
  method ReadCell(env: Env, headers: seq<String>, rec: GNetTrackRecord, i: nat, cell: String)
    returns (r: Result<GNetTrackRecord, String>)
    ensures r == ApplyCell(env, headers, rec, i, cell)
  {
    if i < |headers| {
      var key := ToLower(headers[i]);
      match Lookup(Aliases, key) {
        case Some(f) =>
          var v := CellValue(env, f, cell);
          if v.Err? {
            return Err(v.error);
          }
          return Ok(Set(rec, f, v.value));
        case None =>
      }
    }
    return Ok(rec);
  }

  /** The rest of the row from cell `i` on, applied to the record built so
      far: the order in which `from_csv_record` does the work. */
  function ConvertFrom(env: Env, headers: seq<String>, cells: seq<String>, i: nat, rec: GNetTrackRecord)
    : Result<GNetTrackRecord, String>
    requires i <= |cells|
    decreases |cells| - i
  {
    if i == |cells| then Ok(rec)
    else
      match ApplyCell(env, headers, rec, i, cells[i])
      case Err(e) => Err(e)
      case Ok(next) => ConvertFrom(env, headers, cells, i + 1, next)
  }

  /** Finishing the row from any converted prefix gives the whole row's conversion. */
  lemma {:induction false} ConvertFromPrefix(env: Env, headers: seq<String>, cells: seq<String>, i: nat, rec: GNetTrackRecord)
    requires i <= |cells| && ConvertPrefix(env, headers, cells, i) == Ok(rec)
    ensures ConvertFrom(env, headers, cells, i, rec) == ConvertRow(env, headers, cells)
    decreases |cells| - i
  {
    if i < |cells| {
      ConvertPrefixNext(env, headers, cells, i, rec);
      match ApplyCell(env, headers, rec, i, cells[i])
      case Err(e) =>
        ConvertErrorSticks(env, headers, cells, i + 1, |cells|);
      case Ok(next) =>
        ConvertFromPrefix(env, headers, cells, i + 1, next);
    }
  }

  /** `GNetTrackRecord::from_csv_record`: the loop over the row's cells,
      assigning the field each header routes to and returning early on a
      timestamp that does not parse. */
  method FromCsvRecord(env: Env, record: seq<String>, headers: seq<String>) returns (r: Result<GNetTrackRecord, String>)
    ensures r == ConvertRow(env, headers, record)
  {
    var rec := Blank(env.now);
    ConvertFromPrefix(env, headers, record, 0, rec);
    var i := 0;
    while i < |record|
      invariant i <= |record|
      invariant ConvertFrom(env, headers, record, i, rec) == ConvertRow(env, headers, record)
    {
      var next := ReadCell(env, headers, rec, i, record[i]);
      if next.Err? {
        return next;
      }
      rec := next.value;
      i := i + 1;
    }
    return Ok(rec);
  }

  /** The last of the first `n` columns whose header routes to `f`. */
  function LastColumn(headers: seq<String>, n: nat, f: Field): (k: Option<nat>)
    ensures k.Some? ==> k.value < n && k.value < |headers|
  {
    if n == 0 then None
    else if n - 1 < |headers| && ColumnField(headers[n - 1]) == Some(f) then Some(n - 1)
    else LastColumn(headers, n - 1, f)
  }

  /** `LastColumn` finds a column routed to `f` with none after it, or
      reports that no column is. */
  lemma {:induction false} LastColumnIsLast(headers: seq<String>, n: nat, f: Field)
    ensures var k := LastColumn(headers, n, f);
            && (k.Some? ==> ColumnField(headers[k.value]) == Some(f))
            && (k.Some? ==> forall j :: k.value < j < n && j < |headers| ==> ColumnField(headers[j]) != Some(f))
            && (k.None? ==> forall j :: 0 <= j < n && j < |headers| ==> ColumnField(headers[j]) != Some(f))
  {
    if n > 0 && !(n - 1 < |headers| && ColumnField(headers[n - 1]) == Some(f)) {
      LastColumnIsLast(headers, n - 1, f);
    }
  }

  /** Each field of a converted row comes from the LAST column aliasing it
      (so a later column overrides an earlier one); a field no column aliases
      keeps its starting value: absent, or "now" for the timestamp. */
  lemma {:induction false} FieldFromLastColumn(env: Env, headers: seq<String>, cells: seq<String>, n: nat, f: Field)
    requires n <= |cells| && ConvertPrefix(env, headers, cells, n).Ok?
    ensures LastColumn(headers, n, f).None? ==>
              Get(ConvertPrefix(env, headers, cells, n).value, f) == Get(Blank(env.now), f)
    ensures LastColumn(headers, n, f).Some? ==>
              var k := LastColumn(headers, n, f).value;
              CellValue(env, f, cells[k]).Ok? &&
              Get(ConvertPrefix(env, headers, cells, n).value, f) == CellValue(env, f, cells[k]).value
  {
    if n > 0 {
      var prev := ConvertPrefix(env, headers, cells, n - 1);
      FieldFromLastColumn(env, headers, cells, n - 1, f);
      ApplyCellSets(env, headers, prev.value, n - 1, cells[n - 1], f);
    }
  }

  /** Some of the first `n` cells is a bad timestamp. */
  predicate HasBadTimestamp(env: Env, headers: seq<String>, cells: seq<String>, n: nat)
    requires n <= |cells|
  {
    exists k :: 0 <= k < n && BadTimestampCell(env, headers, cells, k)
  }

  /** A row fails to convert exactly when some timestamp column holds a value
      `ParseTimestamp` rejects; without such a column it always converts. */
  lemma {:induction false} ConvertFailsIffBadTimestamp(env: Env, headers: seq<String>, cells: seq<String>, n: nat)
    requires n <= |cells|
    ensures ConvertPrefix(env, headers, cells, n).Err? <==> HasBadTimestamp(env, headers, cells, n)
  {
    if n > 0 {
      ConvertFailsIffBadTimestamp(env, headers, cells, n - 1);
      ConvertPrefixFailsStep(env, headers, cells, n);
      HasBadTimestampStep(env, headers, cells, n);
    }
  }

  lemma HasBadTimestampStep(env: Env, headers: seq<String>, cells: seq<String>, n: nat)
    requires 0 < n <= |cells|
    ensures HasBadTimestamp(env, headers, cells, n) <==>
              HasBadTimestamp(env, headers, cells, n - 1) || BadTimestampCell(env, headers, cells, n - 1)
  {
    if BadTimestampCell(env, headers, cells, n - 1) {
      assert 0 <= n - 1 < n;
    }
  }

  /** The first `n` cells fail exactly when the first `n - 1` do or cell `n - 1` is a bad timestamp. */
  lemma ConvertPrefixFailsStep(env: Env, headers: seq<String>, cells: seq<String>, n: nat)
    requires 0 < n <= |cells|
    ensures ConvertPrefix(env, headers, cells, n).Err? <==>
              ConvertPrefix(env, headers, cells, n - 1).Err? || BadTimestampCell(env, headers, cells, n - 1)
  {
    var prev := ConvertPrefix(env, headers, cells, n - 1);
    if prev.Ok? {
      ApplyCellFails(env, headers, prev.value, cells, n - 1);
      ConvertPrefixNext(env, headers, cells, n - 1, prev.value);
    }
  }

  // ---------------------------------------------------------------- files

  /** What `std::io::BufRead::read_line` returns first: everything up to and
      including the first newline, or the whole text if it has none. */
  function FirstLine(content: String): (line: String)
    ensures |line| <= |content| && line == content[..|line|]
    ensures forall i :: 0 <= i < |line| - 1 ==> line[i] != '\n'
    ensures |line| < |content| ==> line != [] && line[|line| - 1] == '\n'
  {
    if content == [] then []
    else if content[0] == '\n' then "\n"
    else [content[0]] + FirstLine(content[1..])
  }

  /** `detect_delimiter`: tab when the first line holds a tab, comma otherwise. */
  function DetectDelimiter(content: String): (d: char)
    ensures d == '\t' || d == ','
    ensures d == '\t' <==> exists i :: 0 <= i < |content| && content[i] == '\t' && '\n' !in content[..i]
  {
    var line := FirstLine(content);
    if '\t' in line then
      var i :| 0 <= i < |line| && line[i] == '\t';
      assert content[..i] == line[..i];
      '\t'
    else
      assert forall i :: 0 <= i < |content| && content[i] == '\t' ==> '\n' in content[..i] by {
        forall i | 0 <= i < |content| && content[i] == '\t' ensures '\n' in content[..i] {
          assert i >= |line|;
          assert line[|line| - 1] == content[..i][|line| - 1];
        }
      }
      ','
  }

  /** What the `csv` crate, set to the given delimiter and a header row, makes
      of a file: the header record and then one result per data record. */
  datatype CsvTable = CsvTable(headers: Result<seq<String>, String>, rows: seq<Result<seq<String>, String>>)

  type CsvReader = (String, char) -> CsvTable

  datatype RowFailure = MalformedLine(reason: String) | InvalidRecord(reason: String)

  datatype ParseError =
    | HeaderError(reason: String)
    | LineError(line: nat, failure: RowFailure)

  datatype Parsed = Parsed(records: seq<GNetTrackRecord>, errorCount: nat)

  function RowOutcome(env: Env, headers: seq<String>, row: Result<seq<String>, String>): Result<GNetTrackRecord, RowFailure>
  {
    match row
    case Err(e) => Err(MalformedLine(e))
    case Ok(cells) =>
      (match ConvertRow(env, headers, cells)
       case Ok(rec) => Ok(rec)
       case Err(e) => Err(InvalidRecord(e)))
  }

  /** The records of the rows that convert, in row order. */
  function Kept(env: Env, headers: seq<String>, rows: seq<Result<seq<String>, String>>): seq<GNetTrackRecord>
  {
    if rows == [] then []
    else
      var last := RowOutcome(env, headers, rows[|rows| - 1]);
      Kept(env, headers, rows[..|rows| - 1]) + (if last.Ok? then [last.value] else [])
  }

  /** The number of rows that do not convert. */
  function Failures(env: Env, headers: seq<String>, rows: seq<Result<seq<String>, String>>): nat
  {
    if rows == [] then 0
    else
      Failures(env, headers, rows[..|rows| - 1])
      + (if RowOutcome(env, headers, rows[|rows| - 1]).Err? then 1 else 0)
  }

  /** Every row is either kept or counted as a failure. */
  lemma {:induction false} KeptPlusFailures(env: Env, headers: seq<String>, rows: seq<Result<seq<String>, String>>)
    ensures |Kept(env, headers, rows)| + Failures(env, headers, rows) == |rows|
  {
    if rows != [] {
      KeptPlusFailures(env, headers, rows[..|rows| - 1]);
    }
  }

  /** Every one of `rows` converts. */
  predicate RowsConvert(env: Env, headers: seq<String>, rows: seq<Result<seq<String>, String>>)
  {
    forall k :: 0 <= k < |rows| ==> RowOutcome(env, headers, rows[k]).Ok?
  }

  lemma RowsConvertStep(env: Env, headers: seq<String>, rows: seq<Result<seq<String>, String>>, i: nat)
    requires i < |rows| && RowsConvert(env, headers, rows[..i]) && RowOutcome(env, headers, rows[i]).Ok?
    ensures RowsConvert(env, headers, rows[..i + 1])
  {
    assert forall k :: 0 <= k < i ==> rows[..i + 1][k] == rows[..i][k];
  }

  /** When every row converts, the result is every row's record, in order. */
  lemma {:induction false} KeptAllWhenNoFailure(env: Env, headers: seq<String>, rows: seq<Result<seq<String>, String>>)
    requires RowsConvert(env, headers, rows)
    ensures |Kept(env, headers, rows)| == |rows|
    ensures forall k :: 0 <= k < |rows| ==> Kept(env, headers, rows)[k] == RowOutcome(env, headers, rows[k]).value
  {
    if rows != [] {
      KeptAllWhenNoFailure(env, headers, rows[..|rows| - 1]);
    }
  }

  /** One pass of the row loop: a row the reader could not split is
      malformed, and a split row is converted by `FromCsvRecord`. */
  method ReadRow(env: Env, headers: seq<String>, row: Result<seq<String>, String>)
    returns (outcome: Result<GNetTrackRecord, RowFailure>)
    ensures outcome == RowOutcome(env, headers, row)
  {
    match row {
      case Ok(cells) =>
        var converted := FromCsvRecord(env, cells, headers);
        match converted {
          case Ok(rec) => outcome := Ok(rec);
          case Err(e) => outcome := Err(InvalidRecord(e));
        }
      case Err(e) =>
        outcome := Err(MalformedLine(e));
    }
  }

  /** The row loop of `LogParser::parse_file`. With `skipInvalid` every
      failing row is counted and dropped; without it the first failing row
      aborts, citing its 1-based line (the header is line 1, so data row `k`,
      counted from 0, is line `k + 2`). */
  method ParseRows(env: Env, headers: seq<String>, rows: seq<Result<seq<String>, String>>, skipInvalid: bool)
    returns (r: Result<Parsed, ParseError>)
    ensures skipInvalid ==> r == Ok(Parsed(Kept(env, headers, rows), Failures(env, headers, rows)))
    ensures !skipInvalid && r.Ok? ==>
              r.value == Parsed(Kept(env, headers, rows), 0) && RowsConvert(env, headers, rows)
    ensures !skipInvalid && r.Err? ==>
              exists k :: 0 <= k < |rows|
                && RowsConvert(env, headers, rows[..k])
                && RowOutcome(env, headers, rows[k]).Err?
                && r.error == LineError(k + 2, RowOutcome(env, headers, rows[k]).error)
  {
    var records := [];
    var errorCount := 0;
    var i := 0;
    while i < |rows|
      invariant i <= |rows|
      invariant records == Kept(env, headers, rows[..i])
      invariant errorCount == Failures(env, headers, rows[..i])
      invariant !skipInvalid ==> RowsConvert(env, headers, rows[..i])
    {
      KeptFailuresStep(env, headers, rows, i);
      var outcome := ReadRow(env, headers, rows[i]);
      match outcome {
        case Ok(rec) =>
          if !skipInvalid {
            RowsConvertStep(env, headers, rows, i);
          }
          records := records + [rec];
        case Err(failure) =>
          errorCount := errorCount + 1;
          if !skipInvalid {
            return Err(LineError(i + 2, failure));
          }
      }
      i := i + 1;
    }
    assert rows[..i] == rows;
    if !skipInvalid {
      NoFailuresCounted(env, headers, rows);
    }
    return Ok(Parsed(records, errorCount));
  }

  /** `LogParser::parse_file` after the file is opened: sniff the delimiter
      from the first line, read the whole file with that one delimiter, fail
      on an unreadable header, then run the row loop. */
  method ParseFile(env: Env, content: String, reader: CsvReader, skipInvalid: bool) returns (r: Result<Parsed, ParseError>)
    ensures var table := reader(content, DetectDelimiter(content));
            table.headers.Err? ==> r == Err(HeaderError(table.headers.error))
    ensures var table := reader(content, DetectDelimiter(content));
            table.headers.Ok? && skipInvalid ==>
              r == Ok(Parsed(Kept(env, table.headers.value, table.rows), Failures(env, table.headers.value, table.rows)))
    ensures var table := reader(content, DetectDelimiter(content));
            table.headers.Ok? && !skipInvalid && r.Ok? ==>
              r.value == Parsed(Kept(env, table.headers.value, table.rows), 0)
              && RowsConvert(env, table.headers.value, table.rows)
    ensures var table := reader(content, DetectDelimiter(content));
            table.headers.Ok? && !skipInvalid && r.Err? ==>
              exists k :: 0 <= k < |table.rows|
                && RowsConvert(env, table.headers.value, table.rows[..k])
                && RowOutcome(env, table.headers.value, table.rows[k]).Err?
                && r.error == LineError(k + 2, RowOutcome(env, table.headers.value, table.rows[k]).error)
  {
    var delimiter := DetectDelimiter(content);
    var table := reader(content, delimiter);
    if table.headers.Err? {
      return Err(HeaderError(table.headers.error));
    }
    r := ParseRows(env, table.headers.value, table.rows, skipInvalid);
  }

  lemma KeptFailuresStep(env: Env, headers: seq<String>, rows: seq<Result<seq<String>, String>>, i: nat)
    requires i < |rows|
    ensures var o := RowOutcome(env, headers, rows[i]);
            && Kept(env, headers, rows[..i + 1]) == Kept(env, headers, rows[..i]) + (if o.Ok? then [o.value] else [])
            && Failures(env, headers, rows[..i + 1]) == Failures(env, headers, rows[..i]) + (if o.Err? then 1 else 0)
  {
    assert rows[..i + 1][..i] == rows[..i];
  }

  lemma {:induction false} NoFailuresCounted(env: Env, headers: seq<String>, rows: seq<Result<seq<String>, String>>)
    requires RowsConvert(env, headers, rows)
    ensures Failures(env, headers, rows) == 0
  {
    if rows != [] {
      NoFailuresCounted(env, headers, rows[..|rows| - 1]);
    }
  }
}
