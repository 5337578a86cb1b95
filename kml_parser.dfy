/** The KML side of the converter: a single pass over quick_xml events that
    collects each `<Placemark>`'s data labels and coordinates in an
    accumulator and converts it to a record when the placemark closes. */
module KmlParser {
  import opened Wrappers
  import opened Text
  import opened DateTimes
  import opened Records
  import Parser

  /** The reader events the parser tells apart. `Start` carries the
      element's qualified name and the raw value of its `name` attribute when
      `try_get_attribute("name")` yields one (a missing or malformed attribute
      is `None`). `Text` carries the unescaped text, `None` when unescaping
      fails. `Other` stands for empty elements, CDATA, comments, declarations,
      processing instructions and doctypes. The end of the sequence is `Eof`,
      which the reader keeps returning. */
  datatype XmlEvent =
    | Start(name: String, nameAttr: Option<String>)
    | End(name: String)
    | Text(unescaped: Option<String>)
    | Error(reason: String)
    | Other

  /** `e.unescape().unwrap_or_default()` */
  function Unescaped(u: Option<String>): String
  {
    match u
    case Some(t) => t
    case None => ""
  }

  // ---------------------------------------------------------------- nested reads

  /** `read_text_content` from `pos`: the text of every `Text` event up to the
      first end tag or the end of input, or an error if the reader fails
      first; with the position after what it consumed. */
  function TextContent(events: seq<XmlEvent>, pos: nat): (out: (Result<String, String>, nat))
    requires pos <= |events|
    ensures pos <= out.1 <= |events|
    ensures pos < |events| ==> pos < out.1
    decreases |events| - pos
  {
    if pos == |events| then (Ok(""), pos)
    else
      match events[pos]
      case Text(u) =>
        var rest := TextContent(events, pos + 1);
        (if rest.0.Ok? then Ok(Unescaped(u) + rest.0.value) else rest.0, rest.1)
      case End(_) => (Ok(""), pos + 1)
      case Error(e) => (Err("Error reading text content: " + e), pos + 1)
      case _ => TextContent(events, pos + 1)
  }

  /** `read_data_value` from `pos`: skip to a `<value>` start and read its
      text, or give the empty string if `</Data>` or the end of input comes
      first. */
  function DataValue(events: seq<XmlEvent>, pos: nat): (out: (Result<String, String>, nat))
    requires pos <= |events|
    ensures pos <= out.1 <= |events|
    ensures pos < |events| ==> pos < out.1
    decreases |events| - pos
  {
    if pos == |events| then (Ok(""), pos)
    else
      match events[pos]
      case Start(n, _) => if n == "value" then TextContent(events, pos + 1) else DataValue(events, pos + 1)
      case End(n) => if n == "Data" then (Ok(""), pos + 1) else DataValue(events, pos + 1)
      case Error(e) => (Err("Error reading data value: " + e), pos + 1)
      case _ => DataValue(events, pos + 1)
  }

  /** `KmlParser::read_text_content`: appends each text to `content` until an
      end tag or the end of input. */
  method ReadTextContent(events: seq<XmlEvent>, pos: nat) returns (r: Result<String, String>, next: nat)
    requires pos <= |events|
    ensures (r, next) == TextContent(events, pos)
  {
    var content := "";
    var p := pos;
    assert TextContent(events, p).0.Ok? ==> content + TextContent(events, p).0.value == TextContent(events, p).0.value;
    while p < |events|
      invariant pos <= p <= |events|
      invariant TextContent(events, p).1 == TextContent(events, pos).1
      invariant TextContent(events, p).0.Err? ==> TextContent(events, pos).0 == TextContent(events, p).0
      invariant TextContent(events, p).0.Ok? ==>
                  TextContent(events, pos).0 == Ok(content + TextContent(events, p).0.value)
      decreases |events| - p
    {
      match events[p] {
        case Text(u) =>
          var rest := TextContent(events, p + 1);
          if rest.0.Ok? {
            assert content + (Unescaped(u) + rest.0.value) == (content + Unescaped(u)) + rest.0.value;
          }
          content := content + Unescaped(u);
        case End(_) =>
          assert content + "" == content;
          return Ok(content), p + 1;
        case Error(e) =>
          return Err("Error reading text content: " + e), p + 1;
        case _ =>
      }
      p := p + 1;
    }
    assert content + "" == content;
    return Ok(content), p;
  }

  /** `KmlParser::read_data_value`: skips events until a `<value>` start. */
  method ReadDataValue(events: seq<XmlEvent>, pos: nat) returns (r: Result<String, String>, next: nat)
    requires pos <= |events|
    ensures (r, next) == DataValue(events, pos)
  {
    var p := pos;
    while p < |events|
      invariant pos <= p <= |events|
      invariant DataValue(events, p) == DataValue(events, pos)
      decreases |events| - p
    {
      match events[p] {
        case Start(n, _) =>
          if n == "value" {
            r, next := ReadTextContent(events, p + 1);
            return;
          }
        case End(n) =>
          if n == "Data" {
            return Ok(""), p + 1;
          }
        case Error(e) =>
          return Err("Error reading data value: " + e), p + 1;
        case _ =>
      }
      p := p + 1;
    }
    return Ok(""), p;
  }

  // ---------------------------------------------------------------- accumulator

  /** The value held by a `PlacemarkData`. */
  datatype Placemark = Placemark(
    technology: Option<String>,
    rsrp: Option<String>,
    speed: Option<String>,
    altitude: Option<String>,
    time: Option<String>,
    coordinates: Option<String>)

  const EmptyPlacemark := Placemark(None, None, None, None, None, None)

  /** The data labels `add_data` recognises: technology, RSRP, speed,
      altitude and time. */
  const TechnologyLabel: String := "技術"
  const RsrpLabel: String := "RSRP"
  const SpeedLabel: String := "速度"
  const AltitudeLabel: String := "高度"
  const TimeLabel: String := "時間"

  /** Where `add_data` stores a labelled value: the slot the name names,
      overwriting what was there; an unknown name changes nothing. */
  function Route(p: Placemark, name: String, value: String): (q: Placemark)
    ensures name == TechnologyLabel ==> q == p.(technology := Some(value))
    ensures name == RsrpLabel ==> q == p.(rsrp := Some(value))
    ensures name == SpeedLabel ==> q == p.(speed := Some(value))
    ensures name == AltitudeLabel ==> q == p.(altitude := Some(value))
    ensures name == TimeLabel ==> q == p.(time := Some(value))
    ensures name !in {TechnologyLabel, RsrpLabel, SpeedLabel, AltitudeLabel, TimeLabel} ==> q == p
  {
    if name == TechnologyLabel then p.(technology := Some(value))
    else if name == RsrpLabel then p.(rsrp := Some(value))
    else if name == SpeedLabel then p.(speed := Some(value))
    else if name == AltitudeLabel then p.(altitude := Some(value))
    else if name == TimeLabel then p.(time := Some(value))
    else p
  }

  /** A repeated name keeps only the later value. */
  lemma RouteLaterWins(p: Placemark, name: String, first: String, second: String)
    ensures Route(Route(p, name, first), name, second) == Route(p, name, second)
  {
  }

  /** `PlacemarkData`: the per-placemark accumulator, updated in place. */
  class PlacemarkData {
    var technology: Option<String>
    var rsrp: Option<String>
    var speed: Option<String>
    var altitude: Option<String>
    var time: Option<String>
    var coordinates: Option<String>

    function Snapshot(): Placemark
      reads this
    {
      Placemark(technology, rsrp, speed, altitude, time, coordinates)
    }

    /** `PlacemarkData::new`: every slot empty. */
    constructor ()
      ensures Snapshot() == EmptyPlacemark
    {
      technology, rsrp, speed, altitude, time, coordinates := None, None, None, None, None, None;
    }

    /** `add_data`: store the value in the slot the name names. */
    method AddData(name: String, value: String)
      modifies this
      ensures Snapshot() == Route(old(Snapshot()), name, value)
    {
      if name == TechnologyLabel {
        technology := Some(value);
      } else if name == RsrpLabel {
        rsrp := Some(value);
      } else if name == SpeedLabel {
        speed := Some(value);
      } else if name == AltitudeLabel {
        altitude := Some(value);
      } else if name == TimeLabel {
        time := Some(value);
      }
    }

    /** `set_coordinates`: keep the raw coordinate text. */
    method SetCoordinates(coords: String)
      modifies this
      ensures Snapshot() == old(Snapshot()).(coordinates := Some(coords))
    {
      coordinates := Some(coords);
    }
  }

  // ---------------------------------------------------------------- conversion

  /** The formats `parse_kml_timestamp` probes, in order. */
  const KmlTimestampFormats: seq<String> := [
    "%Y.%m.%d %H.%M.%S",
    "%Y.%m.%d_%H.%M.%S",
    "%Y-%m-%d %H:%M:%S",
    "%Y/%m/%d %H:%M:%S"
  ]

  /** `parse_kml_timestamp`: every `_` becomes a space, then the first
      matching format wins; no match is an error. */
  function ParseKmlTimestamp(env: Env, text: String): (r: Result<DateTime, String>)
    ensures r.Err? ==> r.error == "Unable to parse KML timestamp: " + text
  {
    match FirstMatch(env.parseDateTime, Replace(text, "_", " "), KmlTimestampFormats)
    case Some(t) => Ok(t)
    case None => Err("Unable to parse KML timestamp: " + text)
  }

  /** The second format expects a literal `_`, which the rewriting has already
      removed: as long as chrono does not match that format against text
      without an underscore, it never decides the outcome. */
  lemma UnderscoreFormatUnreachable(env: Env, text: String)
    requires forall s :: '_' !in s ==> MatchFormat(env.parseDateTime, s, KmlTimestampFormats[1]).None?
    ensures ParseKmlTimestamp(env, text) ==
              match FirstMatch(env.parseDateTime, Replace(text, "_", " "),
                               [KmlTimestampFormats[0], KmlTimestampFormats[2], KmlTimestampFormats[3]])
              case Some(t) => Ok(t)
              case None => Err("Unable to parse KML timestamp: " + text)
  {
    var cleaned := Replace(text, "_", " ");
    ReplaceChar(text, '_', ' ');
    FirstMatchSkipsDead(env.parseDateTime, cleaned, KmlTimestampFormats, 1);
    assert KmlTimestampFormats[..1] + KmlTimestampFormats[2..]
        == [KmlTimestampFormats[0], KmlTimestampFormats[2], KmlTimestampFormats[3]];
  }

  /** Longitude and latitude from the coordinate text: the first two
      comma-separated parts of the trimmed text, each parsed on its own;
      fewer than two parts, or no text, gives neither. */
  function Coordinates(env: Env, coords: Option<String>): (lonLat: (Option<real>, Option<real>))
  {
    match coords
    case None => (None, None)
    case Some(c) =>
      var parts := Split(Trim(c), ',');
      if |parts| >= 2 then (env.parseFloat(parts[0]), env.parseFloat(parts[1])) else (None, None)
  }

  /** Coordinates written as `lon,lat[,more...]` with no stray white space
      give back the first two parts; anything after them (the altitude) is
      ignored. */
  lemma CoordinatesFromParts(env: Env, parts: seq<String>)
    requires |parts| >= 2
    requires forall k :: 0 <= k < |parts| ==> ',' !in parts[k]
    requires parts[0] != [] && !IsWhiteSpace(parts[0][0])
    requires parts[|parts| - 1] != [] && !IsWhiteSpace(parts[|parts| - 1][|parts[|parts| - 1]| - 1])
    ensures Coordinates(env, Some(Join(parts, ','))) == (env.parseFloat(parts[0]), env.parseFloat(parts[1]))
  {
    var c := Join(parts, ',');
    JoinLast(parts, ',');
    TrimOfTrimmed(c);
    SplitJoin(parts, ',');
  }

  lemma {:induction false} JoinLast(parts: seq<String>, sep: char)
    requires |parts| >= 1 && parts[|parts| - 1] != []
    ensures var j := Join(parts, sep);
            j != [] && j[|j| - 1] == parts[|parts| - 1][|parts[|parts| - 1]| - 1]
  {
    if |parts| > 1 {
      JoinLast(parts[1..], sep);
    }
  }

  /** The unit-stripped reading of a measurement: every `spaced` and then
      every `bare` unit is removed, the rest trimmed and parsed. */
  function ParseWithUnit(env: Env, source: Option<String>, spaced: String, bare: String): Option<real>
    requires |spaced| > 0 && |bare| > 0
  {
    match source
    case None => None
    case Some(s) => env.parseFloat(Trim(Replace(Replace(s, spaced, ""), bare, "")))
  }

  /** The characters of a plain decimal number. */
  predicate NumberText(n: String)
  {
    forall k :: 0 <= k < |n| ==> IsDigit(n[k]) || n[k] in ".+-eE"
  }

  /** Removing a unit (spaced, then bare) from the end of a text that cannot
      start either spelling gives back the text. */
  lemma StripUnit(n: String, unit: String, spaced: bool)
    requires |unit| > 0 && unit[0] !in n && ' ' !in n && ' ' !in unit
    ensures Replace(Replace(n + (if spaced then " " else "") + unit, " " + unit, ""), unit, "") == n
  {
    if spaced {
      assert n + " " + unit == n + (" " + unit);
      StripSpacedUnit(n, unit);
    } else {
      assert n + "" + unit == n + unit;
      StripBareUnit(n, unit);
    }
  }

  lemma StripSpacedUnit(n: String, unit: String)
    requires |unit| > 0 && unit[0] !in n && ' ' !in n
    ensures Replace(Replace(n + (" " + unit), " " + unit, ""), unit, "") == n
  {
    ReplaceSuffix(n, " " + unit, "");
    assert n + "" == n;
    NoFirstCharNoOccurrence(n, unit);
    ReplaceAbsent(n, unit, "");
  }

  lemma StripBareUnit(n: String, unit: String)
    requires |unit| > 0 && unit[0] !in n && ' ' !in n && ' ' !in unit
    ensures Replace(Replace(n + unit, " " + unit, ""), unit, "") == n
  {
    assert ' ' !in n + unit;
    NoFirstCharNoOccurrence(n + unit, " " + unit);
    ReplaceAbsent(n + unit, " " + unit, "");
    ReplaceSuffix(n, unit, "");
    assert n + "" == n;
  }

  /** A number followed by its unit, with or without a space, reads as the
      number: `"42 km/h"` and `"42km/h"` are both `42`, `"-95 dBm"` is `-95`. */
  lemma ParseWithUnitSuffix(env: Env, n: String, unit: String, spaced: bool)
    requires NumberText(n)
    requires unit == "km/h" || unit == "dBm"
    ensures ParseWithUnit(env, Some(n + (if spaced then " " else "") + unit), " " + unit, unit) == env.parseFloat(n)
  {
    assert unit[0] !in n && ' ' !in n && ' ' !in unit;
    StripUnit(n, unit, spaced);
    TrimOfTrimmed(n);
  }

  /** `PlacemarkData::to_record`. */
  function ToRecord(env: Env, p: Placemark): Result<GNetTrackRecord, String>
  {
    var (longitude, latitude) := Coordinates(env, p.coordinates);
    var timestamp :=
      if p.time.None? then Ok(env.now) else ParseKmlTimestamp(env, p.time.value);
    if timestamp.Err? then Err(timestamp.error)
    else
      var speed := ParseWithUnit(env, p.speed, " km/h", "km/h");
      var level := ParseWithUnit(env, p.rsrp, " dBm", "dBm");
      Ok(GNetTrackRecord(
        timestamp.value, longitude, latitude, speed,
        Some("KDDI"), None, None, None, None, None, None,
        p.technology, None, level, None, None, None, None, None, None))
  }

  /** A placemark converts exactly when it has no time or a readable one;
      the record holds the time (now when absent), the coordinates, the
      unit-stripped speed and level, the technology and the fixed operator,
      and nothing else. */
  lemma ToRecordContents(env: Env, p: Placemark)
    ensures var r := ToRecord(env, p);
            && (r.Ok? <==> p.time.None? || ParseKmlTimestamp(env, p.time.value).Ok?)
            && (r.Err? ==> r == Err(ParseKmlTimestamp(env, p.time.value).error))
    ensures var r := ToRecord(env, p);
            r.Ok? ==>
              && r.value.timestamp == (if p.time.None? then env.now else ParseKmlTimestamp(env, p.time.value).value)
              && (r.value.longitude, r.value.latitude) == Coordinates(env, p.coordinates)
              && r.value.speed == ParseWithUnit(env, p.speed, " km/h", "km/h")
              && r.value.level == ParseWithUnit(env, p.rsrp, " dBm", "dBm")
              && r.value.operator_name == Some("KDDI")
              && r.value.network_tech == p.technology
              && r.value.operator_code.None? && r.value.cgi.None? && r.value.cellname.None?
              && r.value.node.None? && r.value.cell_id.None? && r.value.lac.None?
              && r.value.network_mode.None? && r.value.qual.None? && r.value.snr.None?
              && r.value.cqi.None? && r.value.arfcn.None? && r.value.dl_bitrate.None?
              && r.value.ul_bitrate.None?
  {
  }

  /** The altitude name is collected but never reaches the record. */
  lemma ToRecordIgnoresAltitude(env: Env, p: Placemark, altitude: Option<String>)
    ensures ToRecord(env, p.(altitude := altitude)) == ToRecord(env, p)
  {
  }

  // ---------------------------------------------------------------- event loop

  datatype KmlState = KmlState(
    pos: nat, inPlacemark: bool, current: Placemark, records: seq<GNetTrackRecord>, errorCount: nat)

  const Initial := KmlState(0, false, EmptyPlacemark, [], 0)

  datatype StepOutcome = Continue(next: KmlState) | Stop(result: Result<Parser.Parsed, String>)

  /** One turn of the `parse_file` loop on the event at `st.pos`. */
  function Step(env: Env, events: seq<XmlEvent>, skipInvalid: bool, st: KmlState): (o: StepOutcome)
    requires st.pos < |events|
    ensures o.Continue? ==> st.pos < o.next.pos <= |events|
  {
    var p := st.pos;
    match events[p]
    case Start(name, attr) =>
      if name == "Placemark" then
        Continue(st.(pos := p + 1, inPlacemark := true, current := EmptyPlacemark))
      else if name == "Data" && st.inPlacemark && attr.Some? then
        var (value, next) := DataValue(events, p + 1);
        if value.Err? then Stop(Err(value.error))
        else Continue(st.(pos := next, current := Route(st.current, attr.value, value.value)))
      else if name == "coordinates" && st.inPlacemark then
        var (coords, next) := TextContent(events, p + 1);
        if coords.Err? then Stop(Err(coords.error))
        else Continue(st.(pos := next, current := st.current.(coordinates := Some(coords.value))))
      else Continue(st.(pos := p + 1))
    case End(name) =>
      if name == "Placemark" && st.inPlacemark then
        match ToRecord(env, st.current)
        case Ok(rec) => Continue(st.(pos := p + 1, inPlacemark := false, records := st.records + [rec]))
        case Err(e) =>
          if skipInvalid then Continue(st.(pos := p + 1, inPlacemark := false, errorCount := st.errorCount + 1))
          else Stop(Err("Error parsing placemark: " + e))
      else Continue(st.(pos := p + 1))
    case Error(e) =>
      if skipInvalid then Continue(st.(pos := p + 1, errorCount := st.errorCount + 1))
      else Stop(Err("XML parsing error: " + e))
    case _ => Continue(st.(pos := p + 1))
  }

  /** The rest of the `parse_file` loop from state `st`. */
  function Run(env: Env, events: seq<XmlEvent>, skipInvalid: bool, st: KmlState): Result<Parser.Parsed, String>
    requires st.pos <= |events|
    decreases |events| - st.pos
  {
    if st.pos == |events| then Ok(Parser.Parsed(st.records, st.errorCount))
    else
      match Step(env, events, skipInvalid, st)
      case Continue(next) => Run(env, events, skipInvalid, next)
      case Stop(r) => r
  }

  /** `KmlParser::parse_file` after the file is opened. */
  method ParseFile(env: Env, events: seq<XmlEvent>, skipInvalid: bool) returns (r: Result<Parser.Parsed, String>)
    ensures r == Run(env, events, skipInvalid, Initial)
  {
    var records: seq<GNetTrackRecord> := [];
    var errorCount := 0;
    var inPlacemark := false;
    var current := new PlacemarkData();
    var p := 0;
    while p < |events|
      invariant p <= |events|
      invariant fresh(current)
      invariant Run(env, events, skipInvalid, KmlState(p, inPlacemark, current.Snapshot(), records, errorCount))
             == Run(env, events, skipInvalid, Initial)
      decreases |events| - p
    {
      ghost var st := KmlState(p, inPlacemark, current.Snapshot(), records, errorCount);
      var next := p + 1;
      match events[p] {
        case Start(name, attr) =>
          if name == "Placemark" {
            inPlacemark := true;
            current := new PlacemarkData();
          } else if name == "Data" {
            if inPlacemark && attr.Some? {
              var value, after := ReadDataValue(events, p + 1);
              if value.Err? {
                return Err(value.error);
              }
              current.AddData(attr.value, value.value);
              next := after;
            }
          } else if name == "coordinates" {
            if inPlacemark {
              var coords, after := ReadTextContent(events, p + 1);
              if coords.Err? {
                return Err(coords.error);
              }
              current.SetCoordinates(coords.value);
              next := after;
            }
          }
        case End(name) =>
          if name == "Placemark" && inPlacemark {
            match ToRecord(env, current.Snapshot()) {
              case Ok(rec) =>
                records := records + [rec];
              case Err(e) =>
                errorCount := errorCount + 1;
                if !skipInvalid {
                  return Err("Error parsing placemark: " + e);
                }
            }
            inPlacemark := false;
          }
        case Error(e) =>
          errorCount := errorCount + 1;
          if !skipInvalid {
            return Err("XML parsing error: " + e);
          }
        case _ =>
      }
      assert Step(env, events, skipInvalid, st)
          == Continue(KmlState(next, inPlacemark, current.Snapshot(), records, errorCount));
      p := next;
    }
    return Ok(Parser.Parsed(records, errorCount));
  }

  // ---------------------------------------------------------------- properties of the loop

  predicate NoReaderErrors(events: seq<XmlEvent>, from: nat)
  {
    forall k :: from <= k < |events| ==> !events[k].Error?
  }

  predicate IsPlacemarkStart(e: XmlEvent)
  {
    e.Start? && e.name == "Placemark"
  }

  lemma {:induction false} TextContentWithoutErrors(events: seq<XmlEvent>, pos: nat)
    requires pos <= |events| && NoReaderErrors(events, pos)
    ensures TextContent(events, pos).0.Ok?
    decreases |events| - pos
  {
    if pos < |events| && (events[pos].Text? || events[pos].Start? || events[pos].Other?) {
      TextContentWithoutErrors(events, pos + 1);
    }
  }

  lemma {:induction false} DataValueWithoutErrors(events: seq<XmlEvent>, pos: nat)
    requires pos <= |events| && NoReaderErrors(events, pos)
    ensures DataValue(events, pos).0.Ok?
    decreases |events| - pos
  {
    if pos < |events| {
      if events[pos].Start? && events[pos].name == "value" {
        TextContentWithoutErrors(events, pos + 1);
      } else if !(events[pos].End? && events[pos].name == "Data") {
        DataValueWithoutErrors(events, pos + 1);
      }
    }
  }

  /** With `skipInvalid`, placemarks that fail to convert never stop the
      parse: on input the reader reads without error, the result is `Ok`. */
  lemma {:induction false} SkippingNeverAborts(env: Env, events: seq<XmlEvent>, st: KmlState)
    requires st.pos <= |events| && NoReaderErrors(events, st.pos)
    ensures Run(env, events, true, st).Ok?
    decreases |events| - st.pos
  {
    if st.pos < |events| {
      DataValueWithoutErrors(events, st.pos + 1);
      TextContentWithoutErrors(events, st.pos + 1);
      var o := Step(env, events, true, st);
      assert o.Continue?;
      SkippingNeverAborts(env, events, o.next);
    }
  }

  /** Without `skipInvalid`, a reader error at the top level stops the parse. */
  lemma ReaderErrorAbortsWhenStrict(env: Env, events: seq<XmlEvent>, st: KmlState)
    requires st.pos < |events| && events[st.pos].Error?
    ensures Run(env, events, false, st) == Err("XML parsing error: " + events[st.pos].reason)
  {
  }

  /** Without `skipInvalid`, a reader error at the top level is counted and
      passed over. */
  lemma ReaderErrorSkippedWhenSkipping(env: Env, events: seq<XmlEvent>, st: KmlState)
    requires st.pos < |events| && events[st.pos].Error?
    ensures Run(env, events, true, st) == Run(env, events, true, st.(pos := st.pos + 1, errorCount := st.errorCount + 1))
  {
  }

  /** A failed read of a placemark's `<Data>` value, wherever in it the
      reader error comes, stops the parse with that read's error whatever
      `skipInvalid` says. */
  lemma NestedErrorAbortsEvenWhenSkipping(env: Env, events: seq<XmlEvent>, skipInvalid: bool, st: KmlState, name: String)
    requires st.pos < |events| && st.inPlacemark && events[st.pos] == Start("Data", Some(name))
    requires DataValue(events, st.pos + 1).0.Err?
    ensures Run(env, events, skipInvalid, st) == Err(DataValue(events, st.pos + 1).0.error)
  {
  }

  /** A failed read of a placemark's `<coordinates>` text stops the parse
      with that read's error whatever `skipInvalid` says. */
  lemma CoordinatesErrorAbortsEvenWhenSkipping(env: Env, events: seq<XmlEvent>, skipInvalid: bool, st: KmlState,
                                               attr: Option<String>)
    requires st.pos < |events| && st.inPlacemark && events[st.pos] == Start("coordinates", attr)
    requires TextContent(events, st.pos + 1).0.Err?
    ensures Run(env, events, skipInvalid, st) == Err(TextContent(events, st.pos + 1).0.error)
  {
  }

  /** Where the nested errors come from: a reader error before `<value>`
      fails the data read, and one inside `<value>` (or inside
      `<coordinates>`) fails the text read. */
  lemma NestedErrorMessages(events: seq<XmlEvent>, pos: nat, attr: Option<String>, e: String)
    requires pos + 1 < |events|
    ensures events[pos] == Error(e) ==> DataValue(events, pos).0 == Err("Error reading data value: " + e)
    ensures events[pos] == Error(e) ==> TextContent(events, pos).0 == Err("Error reading text content: " + e)
    ensures events[pos] == Start("value", attr) && events[pos + 1] == Error(e) ==>
              DataValue(events, pos).0 == Err("Error reading text content: " + e)
  {
  }

  /** Outside any placemark, and with no placemark opening ahead, the loop
      produces no record. */
  lemma {:induction false} NoPlacemarkNoRecords(env: Env, events: seq<XmlEvent>, skipInvalid: bool, st: KmlState)
    requires st.pos <= |events| && !st.inPlacemark
    requires forall k :: st.pos <= k < |events| ==> !IsPlacemarkStart(events[k])
    ensures Run(env, events, skipInvalid, st).Ok? ==> Run(env, events, skipInvalid, st).value.records == st.records
    decreases |events| - st.pos
  {
    if st.pos < |events| {
      var o := Step(env, events, skipInvalid, st);
      if o.Continue? {
        assert !o.next.inPlacemark && o.next.records == st.records;
        NoPlacemarkNoRecords(env, events, skipInvalid, o.next);
      }
    }
  }

  /** Records are only ever appended, in document order, and the error count
      only grows. */
  lemma {:induction false} RunOnlyAppends(env: Env, events: seq<XmlEvent>, skipInvalid: bool, st: KmlState)
    requires st.pos <= |events|
    ensures Run(env, events, skipInvalid, st).Ok? ==>
              st.records <= Run(env, events, skipInvalid, st).value.records
              && st.errorCount <= Run(env, events, skipInvalid, st).value.errorCount
    decreases |events| - st.pos
  {
    if st.pos < |events| {
      var o := Step(env, events, skipInvalid, st);
      if o.Continue? {
        assert st.records <= o.next.records;
        RunOnlyAppends(env, events, skipInvalid, o.next);
      }
    }
  }

  /** The events of one `<Data name=..><value>text</value></Data>` group. */
  function DataGroup(name: String, text: String): seq<XmlEvent>
  {
    [Start("Data", Some(name)), Start("value", None), Text(Some(text)), End("value"), End("Data")]
  }

  /** The events of a placemark as the survey app writes it: time, RSRP and
      speed as extended data, then the coordinates. */
  function PlacemarkEvents(time: String, rsrp: String, speed: String, coords: String): (ev: seq<XmlEvent>)
    ensures |ev| == 20
  {
    [Start("Placemark", None)] + DataGroup(TimeLabel, time) + DataGroup(RsrpLabel, rsrp)
      + DataGroup(SpeedLabel, speed)
      + [Start("coordinates", None), Text(Some(coords)), End("coordinates"), End("Placemark")]
  }

  /** A text followed by an end tag reads as that text. */
  lemma TextThenEnd(events: seq<XmlEvent>, pos: nat, text: String)
    requires pos + 1 < |events| && events[pos] == Text(Some(text)) && events[pos + 1].End?
    ensures TextContent(events, pos) == (Ok(text), pos + 2)
  {
    assert TextContent(events, pos + 1) == (Ok(""), pos + 2);
    assert text + "" == text;
  }

  /** A `<Data name=..><value>text</value>` group inside a placemark stores
      the text under the label and resumes after `</value>`. */
  lemma RunDataValue(env: Env, events: seq<XmlEvent>, skipInvalid: bool, st: KmlState, name: String, a: Option<String>, text: String)
    requires st.pos + 3 < |events| && st.inPlacemark
    requires events[st.pos] == Start("Data", Some(name)) && events[st.pos + 1] == Start("value", a)
    requires events[st.pos + 2] == Text(Some(text)) && events[st.pos + 3].End?
    ensures Run(env, events, skipInvalid, st)
         == Run(env, events, skipInvalid, st.(pos := st.pos + 4, current := Route(st.current, name, text)))
  {
    TextThenEnd(events, st.pos + 2, text);
    assert DataValue(events, st.pos + 1) == (Ok(text), st.pos + 4);
    assert Step(env, events, skipInvalid, st)
        == Continue(st.(pos := st.pos + 4, current := Route(st.current, name, text)));
  }

  /** A `<coordinates>text</coordinates>` group inside a placemark stores the
      text as the coordinates and resumes after the end tag. */
  lemma RunCoordinates(env: Env, events: seq<XmlEvent>, skipInvalid: bool, st: KmlState, text: String)
    requires st.pos + 2 < |events| && st.inPlacemark
    requires events[st.pos] == Start("coordinates", None) && events[st.pos + 1] == Text(Some(text))
    requires events[st.pos + 2].End?
    ensures Run(env, events, skipInvalid, st)
         == Run(env, events, skipInvalid, st.(pos := st.pos + 3, current := st.current.(coordinates := Some(text))))
  {
    TextThenEnd(events, st.pos + 1, text);
    assert Step(env, events, skipInvalid, st)
        == Continue(st.(pos := st.pos + 3, current := st.current.(coordinates := Some(text))));
  }

  /** An end tag other than `</Placemark>` is passed over. */
  lemma RunOtherEnd(env: Env, events: seq<XmlEvent>, skipInvalid: bool, st: KmlState)
    requires st.pos < |events| && events[st.pos].End? && events[st.pos].name != "Placemark"
    ensures Run(env, events, skipInvalid, st) == Run(env, events, skipInvalid, st.(pos := st.pos + 1))
  {
  }

  /** `</Placemark>` closing a placemark converts it: the record is added,
      or the failure is counted when skipping and stops the parse otherwise. */
  lemma RunPlacemarkEnd(env: Env, events: seq<XmlEvent>, skipInvalid: bool, st: KmlState)
    requires st.pos < |events| && st.inPlacemark && events[st.pos] == End("Placemark")
    ensures Run(env, events, skipInvalid, st)
         == match ToRecord(env, st.current)
            case Ok(rec) => Run(env, events, skipInvalid, st.(pos := st.pos + 1, inPlacemark := false, records := st.records + [rec]))
            case Err(e) =>
              if skipInvalid then Run(env, events, skipInvalid, st.(pos := st.pos + 1, inPlacemark := false, errorCount := st.errorCount + 1))
              else Err("Error parsing placemark: " + e)
  {
  }

  /** `</Placemark>` closing the last placemark of the file ends the run
      with that placemark's conversion. */
  lemma RunLastPlacemarkEnd(env: Env, events: seq<XmlEvent>, skipInvalid: bool, st: KmlState)
    requires st.pos + 1 == |events| && st.inPlacemark && events[st.pos] == End("Placemark")
    ensures Run(env, events, skipInvalid, st)
         == match ToRecord(env, st.current)
            case Ok(rec) => Ok(Parser.Parsed(st.records + [rec], st.errorCount))
            case Err(e) =>
              if skipInvalid then Ok(Parser.Parsed(st.records, st.errorCount + 1))
              else Err("Error parsing placemark: " + e)
  {
    var o := Step(env, events, skipInvalid, st);
    if o.Continue? {
      assert Run(env, events, skipInvalid, o.next) == Ok(Parser.Parsed(o.next.records, o.next.errorCount));
    }
  }

  /** What a file holding the single placemark `p` parses to. */
  function OnePlacemark(env: Env, skipInvalid: bool, p: Placemark): Result<Parser.Parsed, String>
  {
    match ToRecord(env, p)
    case Ok(rec) => Ok(Parser.Parsed([rec], 0))
    case Err(e) => if skipInvalid then Ok(Parser.Parsed([], 1)) else Err("Error parsing placemark: " + e)
  }

  /** Where each group sits in `PlacemarkEvents`; a helper of `PlacemarkEventsRun`. */
  lemma PlacemarkEventsLayout(time: String, rsrp: String, speed: String, coords: String)
    ensures var ev := PlacemarkEvents(time, rsrp, speed, coords);
            && ev[0] == Start("Placemark", None)
            && ev[1..6] == DataGroup(TimeLabel, time)
            && ev[6..11] == DataGroup(RsrpLabel, rsrp)
            && ev[11..16] == DataGroup(SpeedLabel, speed)
            && ev[16] == Start("coordinates", None) && ev[17] == Text(Some(coords))
            && ev[18] == End("coordinates") && ev[19] == End("Placemark")
  {
  }

  /** A whole `<Data>` group inside a placemark stores its text under its
      label and resumes after `</Data>`. */
  lemma RunDataGroup(env: Env, events: seq<XmlEvent>, skipInvalid: bool, st: KmlState, name: String, text: String)
    requires st.pos + 5 <= |events| && st.inPlacemark
    requires events[st.pos..st.pos + 5] == DataGroup(name, text)
    ensures Run(env, events, skipInvalid, st)
         == Run(env, events, skipInvalid, st.(pos := st.pos + 5, current := Route(st.current, name, text)))
  {
    var g := events[st.pos..st.pos + 5];
    assert events[st.pos] == g[0] && events[st.pos + 1] == g[1] && events[st.pos + 2] == g[2];
    assert events[st.pos + 3] == g[3] && events[st.pos + 4] == g[4];
    RunDataValue(env, events, skipInvalid, st, name, None, text);
    RunOtherEnd(env, events, skipInvalid, st.(pos := st.pos + 4, current := Route(st.current, name, text)));
  }

  /** A file holding one placemark yields exactly the conversion of that
      placemark: the record, or under the skip policy one counted failure,
      or else the conversion's error. */
  lemma PlacemarkEventsRun(env: Env, skipInvalid: bool, time: String, rsrp: String, speed: String, coords: String)
    ensures Run(env, PlacemarkEvents(time, rsrp, speed, coords), skipInvalid, Initial)
         == OnePlacemark(env, skipInvalid, Placemark(None, Some(rsrp), Some(speed), None, Some(time), Some(coords)))
  {
    var ev, sk := PlacemarkEvents(time, rsrp, speed, coords), skipInvalid;
    PlacemarkEventsLayout(time, rsrp, speed, coords);
    var e := EmptyPlacemark;
    var p1 := e.(time := Some(time));
    var p2 := p1.(rsrp := Some(rsrp));
    var p3 := p2.(speed := Some(speed));
    var p4 := p3.(coordinates := Some(coords));
    calc {
      Run(env, ev, sk, Initial);
      Run(env, ev, sk, KmlState(1, true, e, [], 0));
      { RunDataGroup(env, ev, sk, KmlState(1, true, e, [], 0), TimeLabel, time); }
      Run(env, ev, sk, KmlState(6, true, p1, [], 0));
      { RunDataGroup(env, ev, sk, KmlState(6, true, p1, [], 0), RsrpLabel, rsrp); }
      Run(env, ev, sk, KmlState(11, true, p2, [], 0));
      { RunDataGroup(env, ev, sk, KmlState(11, true, p2, [], 0), SpeedLabel, speed); }
      Run(env, ev, sk, KmlState(16, true, p3, [], 0));
      { RunCoordinates(env, ev, sk, KmlState(16, true, p3, [], 0), coords); }
      Run(env, ev, sk, KmlState(19, true, p4, [], 0));
      { RunLastPlacemarkEnd(env, ev, sk, KmlState(19, true, p4, [], 0));
        match ToRecord(env, p4)
        case Ok(rec) => assert [] + [rec] == [rec];
        case Err(_) =>
      }
      OnePlacemark(env, sk, p4);
    }
  }
}
