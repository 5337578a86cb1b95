/** `InfluxClient`, the writer: the choice between the 1.x and 2.x dialects
    made once from the configuration, the tag and field schema of a point,
    one write per batch of records, batches written in order until the
    first failure, and the line-protocol text shown in a dry run.

    Every network call is a `Request` the model records instead of sending;
    what the server answers is a `Reply` given by the caller. */
module InfluxClient {
  import opened Wrappers
  import opened Text
  import opened DateTimes
  import opened Records

  // ---------------------------------------------------------------- configuration and dialect

  /** The `[influxdb]` table of the configuration file. */
  datatype InfluxDbConfig = InfluxDbConfig(
    url: String,
    database: String,
    username: String,
    password: String,
    org: Option<String>,
    token: Option<String>)

  datatype Auth = Anonymous | Basic(username: String, password: String)

  /** A connected client: the 1.x client names a database, the 2.x client an
      organisation and a bucket. */
  datatype Client =
    | V1(url: String, database: String, auth: Auth)
    | V2(url: String, org: String, token: String, bucket: String)

  /** Both a token and an organisation are configured and neither is empty. */
  predicate HasV2Credentials(config: InfluxDbConfig)
  {
    config.token.Some? && config.token.value != [] && config.org.Some? && config.org.value != []
  }

  /** `InfluxClient::new`: never fails; 2.x exactly when the 2.x credentials
      are complete, writing to a bucket named after the database; otherwise
      1.x on the database, with basic authentication exactly when a user
      name is configured. */
  function New(config: InfluxDbConfig): (r: Result<Client, String>)
    ensures r.Ok?
    ensures r.value.V2? <==> HasV2Credentials(config)
    ensures r.value.V2? ==> r.value == V2(config.url, config.org.value, config.token.value, config.database)
    ensures r.value.V1? ==> r.value.url == config.url && r.value.database == config.database
    ensures r.value.V1? ==> (r.value.auth.Basic? <==> config.username != [])
    ensures r.value.V1? && r.value.auth.Basic? ==> r.value.auth == Basic(config.username, config.password)
  {
    if config.token.Some? && config.token.value != [] && config.org.Some? && config.org.value != [] then
      Ok(V2(config.url, config.org.value, config.token.value, config.database))
    else if config.username != [] then
      Ok(V1(config.url, config.database, Basic(config.username, config.password)))
    else
      Ok(V1(config.url, config.database, Anonymous))
  }

  // ---------------------------------------------------------------- requests and replies

  datatype FieldValue = FloatField(x: real) | TextField(s: String)

  /** A 1.x `WriteQuery`: tags and fields in the order they were added. */
  datatype WriteQuery = WriteQuery(
    timestamp: nat,
    measurement: String,
    tags: seq<(String, String)>,
    fields: seq<(String, FieldValue)>)

  /** A 2.x `DataPoint`: tags and fields are keyed maps (`BTreeMap`s). */
  datatype DataPoint = DataPoint(
    measurement: String,
    timestamp: int,
    tags: map<String, String>,
    fields: map<String, FieldValue>)

  /** What the client asks of the server. */
  datatype Request =
    | Query(text: String)
    | Health
    | WriteV1(database: String, queries: seq<WriteQuery>)
    | WriteV2(bucket: String, points: seq<DataPoint>)

  /** What the server answers to one request. */
  datatype Reply = Success | Failure(message: String)

  /** The outcome of an operation and the requests it sent, in order. */
  datatype Effect = Effect(result: Result<(), String>, requests: seq<Request>)

  /** `test_connection`: one query or health check, whose failure fails the test. */
  function TestConnection(c: Client, reply: Reply): (e: Effect)
    ensures e.requests == [if c.V1? then Query("SHOW DATABASES") else Health]
    ensures e.result.Ok? <==> reply.Success?
    ensures reply.Failure? ==> e.result == Err("Connection test failed: " + reply.message)
  {
    var request := if c.V1? then Query("SHOW DATABASES") else Health;
    match reply
    case Success => Effect(Ok(()), [request])
    case Failure(m) => Effect(Err("Connection test failed: " + m), [request])
  }

  /** `create_database_if_not_exists`: always succeeds. A 1.x client sends
      `CREATE DATABASE "<database>"` and ignores the answer; a 2.x client
      sends nothing. */
  function CreateDatabaseIfNotExists(c: Client, reply: Reply): (e: Effect)
    ensures e.result.Ok?
    ensures c.V2? ==> e.requests == []
    ensures c.V1? ==> e.requests == [Query("CREATE DATABASE \"" + c.database + "\"")]
  {
    match c
    case V1(_, database, _) => Effect(Ok(()), [Query("CREATE DATABASE \"" + database + "\"")])
    case V2(_, _, _, _) => Effect(Ok(()), [])
  }

  // ---------------------------------------------------------------- point schema

  const Measurement: String := "network_measurements"

  /** Indexed attributes, in the order they are added as tags. */
  const TagFields: seq<Field> := [OperatorName, OperatorCode, CellId, NetworkTech, NetworkMode, Lac]

  /** Attributes stored as fields: the nine numeric ones, then four textual ones. */
  const PointFields: seq<Field> :=
    [Longitude, Latitude, Speed, Level, Qual, Snr, Cqi, DlBitrate, UlBitrate, Cgi, Cellname, Node, Arfcn]

  /** `timestamp_nanos_opt().unwrap_or(0)`. */
  function Nanos(t: DateTime): (n: int)
    ensures I64Min <= n <= I64Max
    ensures n == t.epochNanos || (n == 0 && !(I64Min <= t.epochNanos <= I64Max))
  {
    match TimestampNanosOpt(t)
    case Some(n) => n
    case None => 0
  }

  const U128Modulus: int := 0x1_0000_0000_0000_0000_0000_0000_0000_0000

  /** An `i64` cast `as u128`: sign extension, so a negative `n` becomes
      `n + 2^128`. */
  function AsU128(n: int): (u: nat)
    requires I64Min <= n <= I64Max
    ensures u < U128Modulus
    ensures u % U128Modulus == n % U128Modulus
  {
    if n >= 0 then n else n + U128Modulus
  }

  function TagEntry(r: GNetTrackRecord, f: Field): Option<String>
  {
    match Get(r, f)
    case TextValue(Some(v)) => Some(v)
    case _ => None
  }

  function FieldEntry(r: GNetTrackRecord, f: Field): Option<FieldValue>
  {
    match Get(r, f)
    case NumberValue(Some(x)) => Some(FloatField(x))
    case TextValue(Some(s)) => Some(TextField(s))
    case _ => None
  }

  function TagsOf(r: GNetTrackRecord): Field -> Option<String>
  {
    f => TagEntry(r, f)
  }

  function FieldsOf(r: GNetTrackRecord): Field -> Option<FieldValue>
  {
    f => FieldEntry(r, f)
  }

  /** The `if let Some(..) = record.x { q = q.add_..("x", ..) }` chain over
      `fs`: one pair per present attribute, keyed by its name, in list order
      (`PresentInOrder`). */
  function Present<V>(entry: Field -> Option<V>, fs: seq<Field>): (ps: seq<(String, V)>)
    ensures |ps| <= |fs|
  {
    if fs == [] then []
    else
      var head := match entry(fs[0]) case Some(v) => [(FieldName(fs[0]), v)] case None => [];
      head + Present(entry, fs[1..])
  }

  /** The positions `from`, `from + 1`, ... of `fs` whose attribute is present, in increasing order. */
  function Positions<V>(entry: Field -> Option<V>, fs: seq<Field>, from: nat): seq<nat>
    requires from <= |fs|
    decreases |fs| - from
  {
    if from == |fs| then []
    else (if entry(fs[from]).Some? then [from] else []) + Positions(entry, fs, from + 1)
  }

  /** `idx` holds, strictly increasing, exactly the positions from `from`
      onwards whose attribute is present. */
  ghost predicate PresentPositions<V>(entry: Field -> Option<V>, fs: seq<Field>, from: nat, idx: seq<nat>)
  {
    && (forall j :: 0 <= j < |idx| ==> from <= idx[j] < |fs| && entry(fs[idx[j]]).Some?)
    && (forall i, j :: 0 <= i < j < |idx| ==> idx[i] < idx[j])
    && (forall k {:trigger k in idx} :: from <= k < |fs| && entry(fs[k]).Some? ==> k in idx)
  }

  /** `ps` lists, in the order of `fs` and once each, exactly the present
      attributes at positions `from` onwards: `idx` holds their positions. */
  ghost predicate ListsInOrder<V>(entry: Field -> Option<V>, fs: seq<Field>, from: nat, ps: seq<(String, V)>, idx: seq<nat>)
  {
    && PresentPositions(entry, fs, from, idx)
    && |idx| == |ps|
    && (forall j {:trigger ps[j]} :: 0 <= j < |idx| ==> ps[j] == (FieldName(fs[idx[j]]), entry(fs[idx[j]]).value))
  }

  lemma {:induction false} PositionsInOrder<V>(entry: Field -> Option<V>, fs: seq<Field>, from: nat)
    requires from <= |fs|
    ensures PresentPositions(entry, fs, from, Positions(entry, fs, from))
    decreases |fs| - from
  {
    if from < |fs| {
      PositionsInOrder(entry, fs, from + 1);
      var idx' := Positions(entry, fs, from + 1);
      var h: seq<nat> := if entry(fs[from]).Some? then [from] else [];
      var idx := h + idx';
      assert Positions(entry, fs, from) == idx;
      forall j | 0 <= j < |idx|
        ensures from <= idx[j] < |fs| && entry(fs[idx[j]]).Some?
      {
        if j >= |h| {
          assert idx[j] == idx'[j - |h|];
        }
      }
      forall i, j | 0 <= i < j < |idx|
        ensures idx[i] < idx[j]
      {
        if i >= |h| {
          assert idx[i] == idx'[i - |h|] && idx[j] == idx'[j - |h|];
        } else {
          assert idx[j] == idx'[j - 1];
        }
      }
      forall k | from <= k < |fs| && entry(fs[k]).Some?
        ensures k in idx
      {
        if k > from {
          assert k in idx';
        }
      }
    }
  }

  /** The chain adds the present attributes in list order, each once. */
  lemma {:induction false} PresentInOrder<V>(entry: Field -> Option<V>, fs: seq<Field>, from: nat)
    requires from <= |fs|
    ensures ListsInOrder(entry, fs, from, Present(entry, fs[from..]), Positions(entry, fs, from))
    decreases |fs| - from
  {
    PositionsInOrder(entry, fs, from);
    if from < |fs| {
      PresentInOrder(entry, fs, from + 1);
      var rest, idx' := Present(entry, fs[from + 1..]), Positions(entry, fs, from + 1);
      assert fs[from..][1..] == fs[from + 1..];
      var head := match entry(fs[from]) case Some(v) => [(FieldName(fs[from]), v)] case None => [];
      var h: seq<nat> := if entry(fs[from]).Some? then [from] else [];
      var ps, idx := head + rest, h + idx';
      assert Present(entry, fs[from..]) == ps;
      assert Positions(entry, fs, from) == idx;
      forall j | 0 <= j < |idx|
        ensures ps[j] == (FieldName(fs[idx[j]]), entry(fs[idx[j]]).value)
      {
        if j >= |h| {
          assert idx[j] == idx'[j - |h|] && ps[j] == rest[j - |h|];
        }
      }
    }
  }

  /** Every present attribute of `fs` is listed under its name, and nothing else is. */
  lemma PresentMembers<V>(entry: Field -> Option<V>, fs: seq<Field>)
    ensures forall f :: f in fs && entry(f).Some? ==> (FieldName(f), entry(f).value) in Present(entry, fs)
    ensures forall p :: p in Present(entry, fs) ==> exists f :: f in fs && entry(f) == Some(p.1) && p.0 == FieldName(f)
  {
    PresentInOrder(entry, fs, 0);
    assert fs[0..] == fs;
    var ps, idx := Present(entry, fs), Positions(entry, fs, 0);
    forall f | f in fs && entry(f).Some?
      ensures (FieldName(f), entry(f).value) in ps
    {
      var k :| 0 <= k < |fs| && fs[k] == f;
      assert k in idx;
      var j :| 0 <= j < |idx| && idx[j] == k;
      assert ps[j] == (FieldName(f), entry(f).value);
    }
    forall p | p in ps
      ensures exists f :: f in fs && entry(f) == Some(p.1) && p.0 == FieldName(f)
    {
      var j :| 0 <= j < |ps| && ps[j] == p;
      assert fs[idx[j]] in fs;
    }
  }

  /** The same chain on a 2.x builder: each present attribute inserted into
      the map in list order. */
  function Insert<V>(m: map<String, V>, entry: Field -> Option<V>, fs: seq<Field>): map<String, V>
    decreases |fs|
  {
    if fs == [] then m
    else
      var m' := match entry(fs[0]) case Some(v) => m[FieldName(fs[0]) := v] case None => m;
      Insert(m', entry, fs[1..])
  }

  /** The point `write_records_v1` builds for one record. */
  function PointV1(r: GNetTrackRecord): WriteQuery
  {
    WriteQuery(AsU128(Nanos(r.timestamp)), Measurement,
               [("measurement_type", "gnettrack")] + Present(TagsOf(r), TagFields),
               Present(FieldsOf(r), PointFields))
  }

  /** The builder `write_records_v2` fills for one record, before `build()`. */
  function PointV2(r: GNetTrackRecord): DataPoint
  {
    DataPoint(Measurement, Nanos(r.timestamp),
              Insert(map["measurement_type" := "gnettrack"], TagsOf(r), TagFields),
              Insert(map[], FieldsOf(r), PointFields))
  }

  /** A 1.x point's tags are the fixed `measurement_type` tag followed by
      the present indexed attributes, and its fields are the present
      attributes of the field list: each under its name, in the order the
      source adds them, none twice, none missing. */
  lemma PointV1Schema(r: GNetTrackRecord)
    ensures PointV1(r).measurement == Measurement && PointV1(r).tags[0] == ("measurement_type", "gnettrack")
    ensures ListsInOrder(TagsOf(r), TagFields, 0, PointV1(r).tags[1..], Positions(TagsOf(r), TagFields, 0))
    ensures ListsInOrder(FieldsOf(r), PointFields, 0, PointV1(r).fields, Positions(FieldsOf(r), PointFields, 0))
    ensures forall f :: f in TagFields && TagEntry(r, f).Some? ==> (FieldName(f), TagEntry(r, f).value) in PointV1(r).tags
    ensures forall p :: p in PointV1(r).tags[1..] ==>
              exists f :: f in TagFields && TagEntry(r, f) == Some(p.1) && p.0 == FieldName(f)
    ensures forall f :: f in PointFields && FieldEntry(r, f).Some? ==> (FieldName(f), FieldEntry(r, f).value) in PointV1(r).fields
    ensures forall p :: p in PointV1(r).fields ==>
              exists f :: f in PointFields && FieldEntry(r, f) == Some(p.1) && p.0 == FieldName(f)
  {
    var tags := Present(TagsOf(r), TagFields);
    assert PointV1(r).tags[1..] == tags;
    assert TagFields[0..] == TagFields && PointFields[0..] == PointFields;
    PresentInOrder(TagsOf(r), TagFields, 0);
    PresentInOrder(FieldsOf(r), PointFields, 0);
    PresentMembers(TagsOf(r), TagFields);
    PresentMembers(FieldsOf(r), PointFields);
    forall f | f in TagFields && TagEntry(r, f).Some?
      ensures (FieldName(f), TagEntry(r, f).value) in PointV1(r).tags
    {
      assert TagsOf(r)(f) == TagEntry(r, f);
    }
    forall p | p in PointV1(r).tags[1..]
      ensures exists f :: f in TagFields && TagEntry(r, f) == Some(p.1) && p.0 == FieldName(f)
    {
      var f :| f in TagFields && TagsOf(r)(f) == Some(p.1) && p.0 == FieldName(f);
    }
    forall f | f in PointFields && FieldEntry(r, f).Some?
      ensures (FieldName(f), FieldEntry(r, f).value) in PointV1(r).fields
    {
      assert FieldsOf(r)(f) == FieldEntry(r, f);
    }
    forall p | p in PointV1(r).fields
      ensures exists f :: f in PointFields && FieldEntry(r, f) == Some(p.1) && p.0 == FieldName(f)
    {
      var f :| f in PointFields && FieldsOf(r)(f) == Some(p.1) && p.0 == FieldName(f);
    }
  }

  /** No two attributes of a list share a name. */
  ghost predicate NamesDistinct(fs: seq<Field>)
  {
    forall i, j :: 0 <= i < j < |fs| ==> FieldName(fs[i]) != FieldName(fs[j])
  }

  lemma SchemaNamesDistinct()
    ensures NamesDistinct(TagFields) && NamesDistinct(PointFields)
    ensures forall f :: f in TagFields ==> FieldName(f) != "measurement_type"
  {
  }

  /** An in-order listing over attributes with distinct names uses each
      name at most once. */
  lemma ListedOnce<V>(entry: Field -> Option<V>, fs: seq<Field>, ps: seq<(String, V)>, idx: seq<nat>)
    requires NamesDistinct(fs) && ListsInOrder(entry, fs, 0, ps, idx)
    ensures forall i, j :: 0 <= i < j < |ps| ==> ps[i].0 != ps[j].0
  {
    forall i, j | 0 <= i < j < |ps|
      ensures ps[i].0 != ps[j].0
    {
      assert ps[i].0 == FieldName(fs[idx[i]]) && ps[j].0 == FieldName(fs[idx[j]]);
    }
  }

  /** A 1.x point carries each tag key and each field key at most once. */
  lemma PointV1KeysOnce(r: GNetTrackRecord)
    ensures forall i, j :: 0 <= i < j < |PointV1(r).tags| ==> PointV1(r).tags[i].0 != PointV1(r).tags[j].0
    ensures forall i, j :: 0 <= i < j < |PointV1(r).fields| ==> PointV1(r).fields[i].0 != PointV1(r).fields[j].0
  {
    PointV1Schema(r);
    SchemaNamesDistinct();
    var tags := PointV1(r).tags;
    ListedOnce(TagsOf(r), TagFields, tags[1..], Positions(TagsOf(r), TagFields, 0));
    ListedOnce(FieldsOf(r), PointFields, PointV1(r).fields, Positions(FieldsOf(r), PointFields, 0));
    forall i, j | 0 <= i < j < |tags|
      ensures tags[i].0 != tags[j].0
    {
      assert tags[j] == tags[1..][j - 1];
      if i > 0 {
        assert tags[i] == tags[1..][i - 1];
      } else {
        var idx := Positions(TagsOf(r), TagFields, 0);
        assert tags[1..][j - 1].0 == FieldName(TagFields[idx[j - 1]]);
      }
    }
  }

  /** The map a sequence of key-value pairs gives when inserted in order:
      later pairs win. */
  function PairsToMap<V>(ps: seq<(String, V)>): map<String, V>
  {
    if ps == [] then map[]
    else PairsToMap(ps[..|ps| - 1])[ps[|ps| - 1].0 := ps[|ps| - 1].1]
  }

  lemma PairsToMapAppend<V>(ps: seq<(String, V)>, x: (String, V))
    ensures PairsToMap(ps + [x]) == PairsToMap(ps)[x.0 := x.1]
  {
    assert (ps + [x])[..|ps|] == ps;
  }

  lemma {:induction false} InsertMatchesPresent<V>(ps: seq<(String, V)>, entry: Field -> Option<V>, fs: seq<Field>)
    ensures PairsToMap(ps + Present(entry, fs)) == Insert(PairsToMap(ps), entry, fs)
    decreases |fs|
  {
    if fs == [] {
      assert ps + [] == ps;
    } else {
      var head := match entry(fs[0]) case Some(v) => [(FieldName(fs[0]), v)] case None => [];
      assert Present(entry, fs) == head + Present(entry, fs[1..]);
      assert ps + Present(entry, fs) == (ps + head) + Present(entry, fs[1..]);
      InsertMatchesPresent(ps + head, entry, fs[1..]);
      if head == [] {
        assert ps + head == ps;
      } else {
        PairsToMapAppend(ps, head[0]);
      }
    }
  }

  /** Both dialects store the same schema: the 2.x point's tag and field
      maps are what the 1.x point's tag and field lists amount to. */
  lemma SameSchema(r: GNetTrackRecord)
    ensures PairsToMap(PointV1(r).tags) == PointV2(r).tags
    ensures PairsToMap(PointV1(r).fields) == PointV2(r).fields
    ensures PointV1(r).measurement == PointV2(r).measurement
  {
    SameTags(r);
    SameFields(r);
  }

  lemma SameTags(r: GNetTrackRecord)
    ensures PairsToMap(PointV1(r).tags) == PointV2(r).tags
  {
    var mt := ("measurement_type", "gnettrack");
    PairsToMapAppend([], mt);
    assert [] + [mt] == [mt];
    InsertMatchesPresent([mt], TagsOf(r), TagFields);
  }

  lemma SameFields(r: GNetTrackRecord)
    ensures PairsToMap(PointV1(r).fields) == PointV2(r).fields
  {
    InsertMatchesPresent([], FieldsOf(r), PointFields);
    assert [] + Present(FieldsOf(r), PointFields) == Present(FieldsOf(r), PointFields);
  }

  /** The dialects agree on a point's time exactly when it is not before
      the epoch: the 1.x cast to `u128` turns a negative count into a
      count near 2^128. */
  lemma TimestampsAgree(r: GNetTrackRecord)
    ensures PointV1(r).timestamp == PointV2(r).timestamp <==> Nanos(r.timestamp) >= 0
    ensures Nanos(r.timestamp) < 0 ==> PointV1(r).timestamp == Nanos(r.timestamp) + U128Modulus
  {
  }

  // ---------------------------------------------------------------- writing

  /** One point per record, in order. */
  function Points<P>(records: seq<GNetTrackRecord>, point: GNetTrackRecord -> P): (ps: seq<P>)
    ensures |ps| == |records| && forall i :: 0 <= i < |records| ==> ps[i] == point(records[i])
  {
    seq(|records|, i requires 0 <= i < |records| => point(records[i]))
  }

  lemma PointsAppend<P>(a: seq<GNetTrackRecord>, b: seq<GNetTrackRecord>, point: GNetTrackRecord -> P)
    ensures Points(a + b, point) == Points(a, point) + Points(b, point)
  {
    var l, r := Points(a + b, point), Points(a, point) + Points(b, point);
    forall i | 0 <= i < |l|
      ensures l[i] == r[i]
    {
      if i < |a| {
        assert (a + b)[i] == a[i];
      } else {
        assert (a + b)[i] == b[i - |a|];
      }
    }
  }

  /** Some record's point fails to build with error `e`, after every earlier one built. */
  predicate FirstBuildError<P>(records: seq<GNetTrackRecord>, point: GNetTrackRecord -> P, buildError: P -> Option<String>, e: String)
  {
    exists k :: 0 <= k < |records| && buildError(point(records[k])) == Some(e)
                && forall j :: 0 <= j < k ==> buildError(point(records[j])).None?
  }

  lemma FirstBuildErrorLater<P>(records: seq<GNetTrackRecord>, point: GNetTrackRecord -> P, buildError: P -> Option<String>, e: String)
    requires records != [] && buildError(point(records[0])).None?
    requires FirstBuildError(records[1..], point, buildError, e)
    ensures FirstBuildError(records, point, buildError, e)
  {
    var k :| 0 <= k < |records| - 1 && buildError(point(records[1..][k])) == Some(e)
             && forall j :: 0 <= j < k ==> buildError(point(records[1..][j])).None?;
    assert records[1..][k] == records[k + 1];
    assert forall j :: 1 <= j < k + 1 ==> records[1..][j - 1] == records[j];
  }

  /** The points, built in record order; the first `build()` that fails
      (`buildError` says why) ends the building with its error. */
  function BuiltPoints<P>(records: seq<GNetTrackRecord>, point: GNetTrackRecord -> P, buildError: P -> Option<String>)
    : Result<seq<P>, String>
  {
    if records == [] then Ok([])
    else
      match buildError(point(records[0]))
      case Some(e) => Err(e)
      case None =>
        var rest := BuiltPoints(records[1..], point, buildError);
        if rest.Err? then Err(rest.error) else Ok([point(records[0])] + rest.value)
  }

  /** Building succeeds exactly when every point builds, and then gives every
      point in order; otherwise its error is the first failing point's. */
  lemma {:induction false} BuiltPointsContents<P>(records: seq<GNetTrackRecord>, point: GNetTrackRecord -> P,
                                                  buildError: P -> Option<String>)
    ensures var r := BuiltPoints(records, point, buildError);
            && (r.Ok? <==> forall i :: 0 <= i < |records| ==> buildError(point(records[i])).None?)
            && (r.Ok? ==> r.value == Points(records, point))
            && (r.Err? ==> FirstBuildError(records, point, buildError, r.error))
  {
    if records != [] && buildError(point(records[0])).None? {
      var rest := BuiltPoints(records[1..], point, buildError);
      BuiltPointsContents(records[1..], point, buildError);
      assert forall i :: 1 <= i < |records| ==> records[1..][i - 1] == records[i];
      if rest.Err? {
        FirstBuildErrorLater(records, point, buildError, rest.error);
      } else {
        assert [point(records[0])] + rest.value == Points(records, point);
      }
    } else if records != [] {
      assert FirstBuildError(records, point, buildError, buildError(point(records[0])).value) by {
        assert 0 <= 0 < |records|;
      }
    }
  }

  /** One 1.x point per record, in order. */
  function QueriesV1(records: seq<GNetTrackRecord>): seq<WriteQuery>
  {
    Points(records, PointV1)
  }

  /** The 2.x points, or the first build error. */
  function PointsV2(records: seq<GNetTrackRecord>, buildError: DataPoint -> Option<String>): Result<seq<DataPoint>, String>
  {
    BuiltPoints(records, PointV2, buildError)
  }

  function WriteFailed(reply: Reply): Result<(), String>
  {
    match reply
    case Success => Ok(())
    case Failure(m) => Err("Write operation failed: " + m)
  }

  /** `write_records` on one slice: nothing at all for an empty slice;
      otherwise all its records in one write request, which fails the call
      exactly when the server says so; a 2.x point that does not build
      fails the call before anything is sent. */
  function WriteEffect(c: Client, records: seq<GNetTrackRecord>, buildError: DataPoint -> Option<String>, reply: Reply): Effect
  {
    if records == [] then Effect(Ok(()), [])
    else
      match c
      case V1(_, database, _) =>
        Effect(WriteFailed(reply), [WriteV1(database, QueriesV1(records))])
      case V2(_, _, _, bucket) =>
        match PointsV2(records, buildError)
        case Err(e) => Effect(Err(e), [])
        case Ok(points) => Effect(WriteFailed(reply), [WriteV2(bucket, points)])
  }

  /** An empty slice sends nothing and succeeds; otherwise at most one write
      is sent (none when a 2.x point fails to build), and when one is sent
      the call's outcome is that write's. */
  lemma WriteEffectContents(c: Client, records: seq<GNetTrackRecord>, buildError: DataPoint -> Option<String>, reply: Reply)
    ensures var e := WriteEffect(c, records, buildError, reply);
            && (records == [] ==> e == Effect(Ok(()), []))
            && |e.requests| <= 1
            && (e.requests != [] ==> e.result == WriteFailed(reply))
    ensures var e := WriteEffect(c, records, buildError, reply);
            records != [] && c.V1? ==> e.requests == [WriteV1(c.database, QueriesV1(records))]
    ensures var e := WriteEffect(c, records, buildError, reply);
            records != [] && c.V2? ==>
              && (e.requests != [] <==> PointsV2(records, buildError).Ok?)
              && (e.requests != [] ==> e.requests == [WriteV2(c.bucket, PointsV2(records, buildError).value)])
              && (e.requests == [] ==> e.result == Err(PointsV2(records, buildError).error))
  {
  }

  /** The `for record in records { .. points.push(point) }` loop of both
      dialects, where every point builds. */
  method BuildPoints<P>(records: seq<GNetTrackRecord>, point: GNetTrackRecord -> P) returns (ps: seq<P>)
    ensures ps == Points(records, point)
  {
    ps := [];
    var i := 0;
    while i < |records|
      invariant i <= |records|
      invariant |ps| == i && forall j :: 0 <= j < i ==> ps[j] == point(records[j])
    {
      ps := ps + [point(records[i])];
      i := i + 1;
    }
  }

  /** The same loop where building a point can fail: the first failure is
      returned at once (`build()?`). */
  method BuildCheckedPoints<P>(records: seq<GNetTrackRecord>, point: GNetTrackRecord -> P, buildError: P -> Option<String>)
    returns (r: Result<seq<P>, String>)
    ensures r == BuiltPoints(records, point, buildError)
  {
    var ps: seq<P> := [];
    var i := 0;
    while i < |records|
      invariant i <= |records|
      invariant |ps| == i && forall j :: 0 <= j < i ==> ps[j] == point(records[j])
      invariant forall j :: 0 <= j < i ==> buildError(point(records[j])).None?
    {
      var p := point(records[i]);
      var built := buildError(p);
      if built.Some? {
        BuiltPointsContents(records, point, buildError);
        var k :| 0 <= k < |records| && buildError(point(records[k])) == Some(BuiltPoints(records, point, buildError).error)
                 && forall j :: 0 <= j < k ==> buildError(point(records[j])).None?;
        assert k == i;
        return Err(built.value);
      }
      ps := ps + [p];
      i := i + 1;
    }
    BuiltPointsContents(records, point, buildError);
    assert ps == Points(records, point);
    r := Ok(ps);
  }

  /** `write_records_v1`: one point per record, then one request carrying
      them all, whose failure fails the call. */
  method WriteRecordsV1(database: String, records: seq<GNetTrackRecord>, reply: Reply) returns (e: Effect)
    ensures e == Effect(WriteFailed(reply), [WriteV1(database, QueriesV1(records))])
  {
    var queries := BuildPoints(records, PointV1);
    e := Effect(WriteFailed(reply), [WriteV1(database, queries)]);
  }

  /** `write_records_v2`: the points are built first and a build error is
      returned before anything is sent; otherwise one request carries
      them all. */
  method WriteRecordsV2(bucket: String, records: seq<GNetTrackRecord>, buildError: DataPoint -> Option<String>, reply: Reply)
    returns (e: Effect)
    ensures e == match PointsV2(records, buildError)
                 case Err(m) => Effect(Err(m), [])
                 case Ok(points) => Effect(WriteFailed(reply), [WriteV2(bucket, points)])
  {
    var points := BuildCheckedPoints(records, PointV2, buildError);
    if points.Err? {
      return Effect(Err(points.error), []);
    }
    e := Effect(WriteFailed(reply), [WriteV2(bucket, points.value)]);
  }

  /** `write_records`: an empty slice sends nothing, otherwise the call goes
      to the client's dialect. */
  method WriteRecords(c: Client, records: seq<GNetTrackRecord>, buildError: DataPoint -> Option<String>, reply: Reply)
    returns (e: Effect)
    ensures e == WriteEffect(c, records, buildError, reply)
  {
    if records == [] {
      return Effect(Ok(()), []);
    }
    match c
    case V1(_, database, _) =>
      e := WriteRecordsV1(database, records, reply);
    case V2(_, _, _, bucket) =>
      e := WriteRecordsV2(bucket, records, buildError, reply);
  }

  // ---------------------------------------------------------------- batches

  function Flatten<T>(xss: seq<seq<T>>): seq<T>
  {
    if xss == [] then [] else xss[0] + Flatten(xss[1..])
  }

  /** `slice::chunks(b)`: consecutive pieces of exactly `b` records, except
      a shorter last one, that together are the input; there are
      ceil(n / b) of them, so the last one is not empty and not over `b`. */
  function Chunks<T>(xs: seq<T>, b: nat): (cs: seq<seq<T>>)
    requires b > 0
    ensures forall i :: 0 <= i < |cs| ==> 0 < |cs[i]| <= b
    ensures forall i :: 0 <= i < |cs| - 1 ==> |cs[i]| == b
    ensures Flatten(cs) == xs
    decreases |xs|
  {
    if xs == [] then []
    else if |xs| <= b then
      assert Flatten([xs]) == xs + [];
      [xs]
    else
      var rest := Chunks(xs[b..], b);
      var cs := [xs[..b]] + rest;
      assert cs[1..] == rest;
      assert xs[..b] + xs[b..] == xs;
      cs
  }

  /** There are ceil(n / b) chunks: `k` chunks hold more than `(k - 1) * b`
      records and at most `k * b`. */
  lemma {:induction false} ChunkCount<T>(xs: seq<T>, b: nat)
    requires b > 0
    ensures |Chunks(xs, b)| * b - b < |xs| <= |Chunks(xs, b)| * b
    decreases |xs|
  {
    if |xs| > b {
      ChunkCount(xs[b..], b);
      assert |Chunks(xs, b)| == |Chunks(xs[b..], b)| + 1;
      OneMoreChunk(|Chunks(xs[b..], b)|, b, |xs|);
    }
  }

  /** The arithmetic step of `ChunkCount`: one more full batch adds one to the count. */
  lemma OneMoreChunk(m: int, b: int, n: int)
    requires m * b - b < n - b <= m * b
    ensures (m + 1) * b - b < n <= (m + 1) * b
  {
    assert (m + 1) * b == m * b + b;
  }

  /** What writing each chunk on its own would do; the `j`-th write is
      answered by `replies(j)`. */
  function ChunkEffects(c: Client, chunks: seq<seq<GNetTrackRecord>>, buildError: DataPoint -> Option<String>,
                        replies: nat -> Reply): (es: seq<Effect>)
    ensures |es| == |chunks|
  {
    seq(|chunks|, j requires 0 <= j < |chunks| => WriteEffect(c, chunks[j], buildError, replies(j)))
  }

  /** On a 1.x client every non-empty chunk's write sends one request with its queries. */
  lemma ChunkEffectsV1(c: Client, chunks: seq<seq<GNetTrackRecord>>, buildError: DataPoint -> Option<String>,
                       replies: nat -> Reply)
    requires c.V1? && forall j :: 0 <= j < |chunks| ==> chunks[j] != []
    ensures var es := ChunkEffects(c, chunks, buildError, replies);
            forall j :: 0 <= j < |chunks| ==> es[j].requests == [WriteV1(c.database, QueriesV1(chunks[j]))]
  {
    var es := ChunkEffects(c, chunks, buildError, replies);
    forall j | 0 <= j < |chunks|
      ensures es[j].requests == [WriteV1(c.database, QueriesV1(chunks[j]))]
    {
      assert es[j] == WriteEffect(c, chunks[j], buildError, replies(j));
    }
  }

  /** The steps from `i` on, taken in order until one fails (`?` in a loop). */
  function InOrder(es: seq<Effect>, i: nat): Effect
    requires i <= |es|
    decreases |es| - i
  {
    if i == |es| then Effect(Ok(()), [])
    else if es[i].result.Err? then es[i]
    else
      var rest := InOrder(es, i + 1);
      Effect(rest.result, es[i].requests + rest.requests)
  }

  /** The requests steps `i..k` send between them. */
  function SentBetween(es: seq<Effect>, i: nat, k: nat): seq<Request>
    requires i <= k <= |es|
    decreases k - i
  {
    if i == k then [] else es[i].requests + SentBetween(es, i + 1, k)
  }

  /** Steps taken in order that end well all succeeded, and sent all their
      requests, in order. */
  lemma {:induction false} InOrderSuccess(es: seq<Effect>, i: nat)
    requires i <= |es| && InOrder(es, i).result.Ok?
    ensures forall j :: i <= j < |es| ==> es[j].result.Ok?
    ensures InOrder(es, i).requests == SentBetween(es, i, |es|)
    decreases |es| - i
  {
    if i < |es| {
      InOrderSuccess(es, i + 1);
    }
  }

  /** Steps taken in order stop at the first failure and undo nothing: there
      is a step `k` that failed after every earlier one succeeded, the
      requests are those of steps `i..k`, and the error is step `k`'s. */
  lemma {:induction false} InOrderFailure(es: seq<Effect>, i: nat)
    requires i <= |es| && InOrder(es, i).result.Err?
    ensures exists k :: i <= k < |es| && (forall j :: i <= j < k ==> es[j].result.Ok?)
              && InOrder(es, i).result == es[k].result
              && InOrder(es, i).requests == SentBetween(es, i, k + 1)
    decreases |es| - i
  {
    if es[i].result.Err? {
      assert SentBetween(es, i + 1, i + 1) == [];
      assert es[i].requests + [] == es[i].requests;
    } else {
      InOrderFailure(es, i + 1);
      var k :| i + 1 <= k < |es| && (forall j :: i + 1 <= j < k ==> es[j].result.Ok?)
               && InOrder(es, i + 1).result == es[k].result
               && InOrder(es, i + 1).requests == SentBetween(es, i + 1, k + 1);
      assert SentBetween(es, i, k + 1) == es[i].requests + SentBetween(es, i + 1, k + 1);
    }
  }

  /** One step of `InOrder` seen from the requests already sent. */
  lemma InOrderStep(es: seq<Effect>, i: nat, sent: seq<Request>)
    requires i < |es|
    ensures es[i].result.Err? ==> InOrder(es, i) == es[i]
    ensures es[i].result.Ok? ==>
              && InOrder(es, i).result == InOrder(es, i + 1).result
              && sent + InOrder(es, i).requests == (sent + es[i].requests) + InOrder(es, i + 1).requests
  {
  }

  /** The chunks written one after another, stopping at the first error. */
  function WriteChunks(c: Client, chunks: seq<seq<GNetTrackRecord>>, buildError: DataPoint -> Option<String>,
                       replies: nat -> Reply): Effect
  {
    InOrder(ChunkEffects(c, chunks, buildError, replies), 0)
  }

  /** One pass of the batch loop: `write_records` on batch `i`. */
  method WriteBatch(c: Client, chunks: seq<seq<GNetTrackRecord>>, i: nat, buildError: DataPoint -> Option<String>,
                    replies: nat -> Reply)
    returns (e: Effect)
    requires i < |chunks|
    ensures e == ChunkEffects(c, chunks, buildError, replies)[i]
  {
    e := WriteRecords(c, chunks[i], buildError, replies(i));
  }

  /** `write_records_batch`: nothing for no records; otherwise the chunks
      written one after another, stopping at the first error. */
  method WriteRecordsBatch(c: Client, records: seq<GNetTrackRecord>, batchSize: nat,
                           buildError: DataPoint -> Option<String>, replies: nat -> Reply)
    returns (e: Effect)
    requires records == [] || batchSize > 0
    ensures records == [] ==> e == Effect(Ok(()), [])
    ensures records != [] ==> e == WriteChunks(c, Chunks(records, batchSize), buildError, replies)
  {
    if records == [] {
      return Effect(Ok(()), []);
    }
    var chunks := Chunks(records, batchSize);
    ghost var es := ChunkEffects(c, chunks, buildError, replies);
    var sent: seq<Request> := [];
    var i := 0;
    while i < |chunks|
      invariant i <= |chunks|
      invariant InOrder(es, 0).result == InOrder(es, i).result
      invariant InOrder(es, 0).requests == sent + InOrder(es, i).requests
    {
      var here := WriteBatch(c, chunks, i, buildError, replies);
      InOrderStep(es, i, sent);
      if here.result.Err? {
        return Effect(here.result, sent + here.requests);
      }
      sent := sent + here.requests;
      i := i + 1;
    }
    assert sent + [] == sent;
    e := Effect(Ok(()), sent);
  }

  /** The 1.x queries the requests carry, in order. */
  function QueriesSent(requests: seq<Request>): seq<WriteQuery>
  {
    if requests == [] then []
    else (if requests[0].WriteV1? then requests[0].queries else []) + QueriesSent(requests[1..])
  }

  lemma {:induction false} QueriesSentAppend(a: seq<Request>, b: seq<Request>)
    ensures QueriesSent(a + b) == QueriesSent(a) + QueriesSent(b)
  {
    if a != [] {
      assert (a + b)[1..] == a[1..] + b;
      QueriesSentAppend(a[1..], b);
    } else {
      assert a + b == b;
    }
  }

  /** Steps that each sent one 1.x request for their chunk, taken in order
      to a good end, sent one request per chunk and, across them, exactly
      one point per record in record order. */
  lemma {:induction false} InOrderV1WritesEveryRecordOnce(database: String, chunks: seq<seq<GNetTrackRecord>>, es: seq<Effect>, i: nat)
    requires |es| == |chunks| && i <= |chunks|
    requires forall j :: 0 <= j < |chunks| ==> es[j].requests == [WriteV1(database, QueriesV1(chunks[j]))]
    requires InOrder(es, i).result.Ok?
    ensures |InOrder(es, i).requests| == |chunks| - i
    ensures QueriesSent(InOrder(es, i).requests) == QueriesV1(Flatten(chunks[i..]))
    decreases |chunks| - i
  {
    if i == |chunks| {
      assert chunks[i..] == [];
    } else {
      var rest := InOrder(es, i + 1);
      InOrderV1WritesEveryRecordOnce(database, chunks, es, i + 1);
      QueriesSentAppend(es[i].requests, rest.requests);
      assert QueriesSent(es[i].requests) == QueriesV1(chunks[i]) + [];
      assert chunks[i..][1..] == chunks[i + 1..];
      PointsAppend(chunks[i], Flatten(chunks[i + 1..]), PointV1);
    }
  }

  /** A successful `write_records_batch` of `n` records on a 1.x client makes
      ceil(n / batch size) write requests carrying every record once, in order. */
  lemma BatchWriteV1Success(c: Client, records: seq<GNetTrackRecord>, batchSize: nat,
                            buildError: DataPoint -> Option<String>, replies: nat -> Reply)
    requires c.V1? && batchSize > 0 && records != []
    requires WriteChunks(c, Chunks(records, batchSize), buildError, replies).result.Ok?
    ensures var n := |WriteChunks(c, Chunks(records, batchSize), buildError, replies).requests|;
            n * batchSize - batchSize < |records| <= n * batchSize
    ensures QueriesSent(WriteChunks(c, Chunks(records, batchSize), buildError, replies).requests) == QueriesV1(records)
  {
    var cs := Chunks(records, batchSize);
    var es := ChunkEffects(c, cs, buildError, replies);
    ChunkEffectsV1(c, cs, buildError, replies);
    InOrderV1WritesEveryRecordOnce(c.database, cs, es, 0);
    ChunkCount(records, batchSize);
    assert cs[0..] == cs;
  }

  // ---------------------------------------------------------------- dry-run line protocol

  const LinePrefix: String := Measurement + ",measurement_type=" + "gnettrack"

  /** `key` (a comma, the name and `=`) then the value, when it is present, unescaped. */
  function TagText(key: String, v: Option<String>): String
  {
    if v.Some? then key + v.value else ""
  }

  /** The optional `,operator_name=..` and `,network_tech=..` tags. */
  function LineTags(r: GNetTrackRecord): String
  {
    TagText(",operator_name=", r.operator_name) + TagText(",network_tech=", r.network_tech)
  }

  /** Pushing an optional piece onto a text appends what the piece shows
      (a step of `FormatRecord`). */
  lemma PushOptional<T>(acc: seq<T>, present: bool, shown: seq<T>)
    requires present || shown == []
    ensures (if present then acc + shown else acc) == acc + shown
  {
  }

  /** Re-association of a concatenation, for the steps of `FormatRecord`. */
  lemma Regroup<T>(a: seq<T>, b: seq<T>, c: seq<T>)
    ensures (a + b) + c == a + (b + c)
  {
  }

  /** `key` (the name and `=`) then the value, when it is present, shown by `show`. */
  function FieldText(key: String, x: Option<real>, show: real -> String): seq<String>
  {
    if x.Some? then [key + show(x.value)] else []
  }

  /** The dry-run fields: longitude, latitude, speed and level, when present. */
  function FieldTexts(r: GNetTrackRecord, show: real -> String): seq<String>
  {
    FieldText("longitude=", r.longitude, show) + FieldText("latitude=", r.latitude, show)
    + FieldText("speed=", r.speed, show) + FieldText("level=", r.level, show)
  }

  /** One dry-run line: measurement and tags, a space, the fields joined by
      commas, a space, the nanosecond timestamp. */
  function Line(r: GNetTrackRecord, show: real -> String): String
  {
    LinePrefix + LineTags(r) + " " + Join(FieldTexts(r, show), ',') + " " + ShowInt(Nanos(r.timestamp))
  }

  /** One pass of the `format_records_for_influx` loop: the line for one record. */
  method FormatRecord(record: GNetTrackRecord, show: real -> String) returns (line: String)
    ensures line == Line(record, show)
  {
    var timestamp := Nanos(record.timestamp);
    line := LinePrefix;
    ghost var start := line;
    if record.operator_name.Some? {
      line := line + (",operator_name=" + record.operator_name.value);
    }
    PushOptional(start, record.operator_name.Some?, TagText(",operator_name=", record.operator_name));
    ghost var tagged := line;
    if record.network_tech.Some? {
      line := line + (",network_tech=" + record.network_tech.value);
    }
    PushOptional(tagged, record.network_tech.Some?, TagText(",network_tech=", record.network_tech));
    Regroup(LinePrefix, TagText(",operator_name=", record.operator_name), TagText(",network_tech=", record.network_tech));
    assert line == LinePrefix + LineTags(record);
    line := line + " ";
    var fields: seq<String> := [];
    if record.longitude.Some? {
      fields := fields + ["longitude=" + show(record.longitude.value)];
    }
    assert fields == FieldText("longitude=", record.longitude, show);
    ghost var f1 := fields;
    if record.latitude.Some? {
      fields := fields + ["latitude=" + show(record.latitude.value)];
    }
    PushOptional(f1, record.latitude.Some?, FieldText("latitude=", record.latitude, show));
    ghost var f2 := fields;
    if record.speed.Some? {
      fields := fields + ["speed=" + show(record.speed.value)];
    }
    PushOptional(f2, record.speed.Some?, FieldText("speed=", record.speed, show));
    ghost var f3 := fields;
    if record.level.Some? {
      fields := fields + ["level=" + show(record.level.value)];
    }
    PushOptional(f3, record.level.Some?, FieldText("level=", record.level, show));
    assert fields == FieldTexts(record, show);
    line := line + Join(fields, ',');
    ghost var body := line;
    assert body == LinePrefix + LineTags(record) + " " + Join(FieldTexts(record, show), ',');
    line := line + (" " + ShowInt(timestamp));
    Regroup(body, " ", ShowInt(timestamp));
    assert line == Line(record, show);
  }

  /** `f` applied to each element of `xs`, in order. */
  function MapSeq<A, B>(f: A -> B, xs: seq<A>): (ys: seq<B>)
    ensures |ys| == |xs|
  {
    if xs == [] then [] else MapSeq(f, xs[..|xs| - 1]) + [f(xs[|xs| - 1])]
  }

  /** One more element of the input maps to one more element at the end. */
  lemma MapSeqPrefixStep<A, B>(f: A -> B, xs: seq<A>, i: nat)
    requires i < |xs|
    ensures MapSeq(f, xs[..i + 1]) == MapSeq(f, xs[..i]) + [f(xs[i])]
  {
    assert xs[..i + 1][..i] == xs[..i];
  }

  lemma {:induction false} MapSeqAt<A, B>(f: A -> B, xs: seq<A>)
    ensures forall i :: 0 <= i < |xs| ==> MapSeq(f, xs)[i] == f(xs[i])
  {
    if xs != [] {
      var init := xs[..|xs| - 1];
      MapSeqAt(f, init);
      assert forall i :: 0 <= i < |init| ==> init[i] == xs[i];
    }
  }

  /** `Line` with its rendering of numbers fixed. */
  function LineOf(show: real -> String): GNetTrackRecord -> String
  {
    r => Line(r, show)
  }

  /** `format_records_for_influx`: never fails, one line per record, in order. */
  method FormatRecordsForInflux(records: seq<GNetTrackRecord>, show: real -> String) returns (r: Result<seq<String>, String>)
    ensures r.Ok? && |r.value| == |records|
    ensures forall i :: 0 <= i < |records| ==> r.value[i] == Line(records[i], show)
  {
    var lines: seq<String> := [];
    var i := 0;
    while i < |records|
      invariant i <= |records|
      invariant lines == MapSeq(LineOf(show), records[..i])
    {
      var line := FormatRecord(records[i], show);
      MapSeqPrefixStep(LineOf(show), records, i);
      lines := lines + [line];
      i := i + 1;
    }
    assert records[..i] == records;
    MapSeqAt(LineOf(show), records);
    r := Ok(lines);
  }

  lemma ShowIntDigits(n: int)
    ensures ' ' !in ShowInt(n)
  {
    if n < 0 {
      ShowNatDigits(-n);
      assert ShowInt(n) == "-" + ShowNat(-n);
    } else {
      ShowNatDigits(n);
    }
  }

  /** No value shown contains a space. */
  predicate SpaceFree(r: GNetTrackRecord, show: real -> String)
  {
    ' ' !in LineTags(r) && forall t :: t in FieldTexts(r, show) ==> ' ' !in t
  }

  lemma LinePrefixSpaceFree()
    ensures ' ' !in LinePrefix
  {
    assert ' ' !in Measurement && ' ' !in ",measurement_type=" && ' ' !in "gnettrack";
  }

  /** The field list and the timestamp of a line hold no space when no
      field value shows one. */
  lemma LineTailSpaceFree(r: GNetTrackRecord, show: real -> String)
    requires forall t :: t in FieldTexts(r, show) ==> ' ' !in t
    ensures ' ' !in Join(FieldTexts(r, show), ',') && ' ' !in ShowInt(Nanos(r.timestamp))
  {
    JoinAvoids(FieldTexts(r, show), ',', ' ');
    ShowIntDigits(Nanos(r.timestamp));
  }

  /** Space-separated sections without a space of their own split back apart. */
  lemma SplitThree(h: String, f: String, t: String)
    requires ' ' !in h && ' ' !in f && ' ' !in t
    ensures Split(h + [' '] + (f + [' '] + t), ' ') == [h, f, t]
  {
    SplitNoSep(t, ' ');
    SplitAppend(f, ' ', t);
    SplitAppend(h, ' ', f + [' '] + t);
  }

  lemma SplitFour(h: String, b: String, f: String, t: String)
    requires ' ' !in h && ' ' !in b && ' ' !in f && ' ' !in t
    ensures Split(h + [' '] + (b + [' '] + (f + [' '] + t)), ' ') == [h, b, f, t]
  {
    SplitThree(b, f, t);
    SplitAppend(h, ' ', b + [' '] + (f + [' '] + t));
  }

  /** A line regrouped around its two section spaces, for `LineSections`. */
  lemma LineShape(p: String, fields: String, time: String)
    ensures p + " " + fields + " " + time == p + [' '] + (fields + [' '] + time)
  {
  }

  /** A dry-run line whose values hold no space reads back as the three
      line-protocol sections, and its last section parses back to the
      record's timestamp (0 when it is out of range). */
  lemma LineSections(r: GNetTrackRecord, show: real -> String)
    requires SpaceFree(r, show)
    ensures Split(Line(r, show), ' ')
         == [LinePrefix + LineTags(r), Join(FieldTexts(r, show), ','), ShowInt(Nanos(r.timestamp))]
    ensures ParseI64(Split(Line(r, show), ' ')[2]) == Some(Nanos(r.timestamp))
  {
    var head, fields, time := LinePrefix + LineTags(r), Join(FieldTexts(r, show), ','), ShowInt(Nanos(r.timestamp));
    LineTailSpaceFree(r, show);
    LinePrefixSpaceFree();
    LineShape(head, fields, time);
    SplitThree(head, fields, time);
    ParseShowRoundTrip(Nanos(r.timestamp));
  }

  /** A line with a space in a tag value, regrouped around its three spaces,
      for `SpaceInOperatorName`. */
  lemma SpaceInTagShape(p: String, t: String, a: String, b: String, fields: String, time: String)
    ensures p + (t + (a + " " + b)) + " " + fields + " " + time
         == (p + t + a) + [' '] + (b + [' '] + (fields + [' '] + time))
  {
  }

  /** Tag values are not escaped: a space in the operator name splits the
      line into four sections, the second starting inside the name, so the
      fields and the timestamp move one place on. */
  lemma SpaceInOperatorName(r: GNetTrackRecord, show: real -> String, a: String, b: String)
    requires r.operator_name == Some(a + " " + b) && ' ' !in a && ' ' !in b
    requires r.network_tech.None?
    requires forall t :: t in FieldTexts(r, show) ==> ' ' !in t
    ensures Split(Line(r, show), ' ')
         == [LinePrefix + ",operator_name=" + a, b, Join(FieldTexts(r, show), ','), ShowInt(Nanos(r.timestamp))]
  {
    var head := LinePrefix + ",operator_name=" + a;
    var fields, time := Join(FieldTexts(r, show), ','), ShowInt(Nanos(r.timestamp));
    LineTailSpaceFree(r, show);
    LinePrefixSpaceFree();
    assert ' ' !in ",operator_name=";
    assert LineTags(r) == ",operator_name=" + (a + " " + b);
    SpaceInTagShape(LinePrefix, ",operator_name=", a, b, fields, time);
    SplitFour(head, b, fields, time);
  }
}
