/** `GNetTrackRecord`, the one record shape both parsers produce and the
    writer consumes: a required UTC timestamp and nineteen optional
    attributes, nine numeric and ten textual. */
module Records {
  import opened Wrappers
  import opened Text
  import opened DateTimes

  datatype GNetTrackRecord = GNetTrackRecord(
    timestamp: DateTime,
    longitude: Option<real>,
    latitude: Option<real>,
    speed: Option<real>,
    operator_name: Option<String>,
    operator_code: Option<String>,
    cgi: Option<String>,
    cellname: Option<String>,
    node: Option<String>,
    cell_id: Option<String>,
    lac: Option<String>,
    network_tech: Option<String>,
    network_mode: Option<String>,
    level: Option<real>,
    qual: Option<real>,
    snr: Option<real>,
    cqi: Option<real>,
    arfcn: Option<String>,
    dl_bitrate: Option<real>,
    ul_bitrate: Option<real>)

  /** The twenty attributes of a record, in declaration order. */
  datatype Field =
    | Timestamp | Longitude | Latitude | Speed | OperatorName | OperatorCode
    | Cgi | Cellname | Node | CellId | Lac | NetworkTech | NetworkMode
    | Level | Qual | Snr | Cqi | Arfcn | DlBitrate | UlBitrate

  datatype Kind = TimeKind | NumberKind | TextKind

  function KindOf(f: Field): Kind
  {
    match f
    case Timestamp => TimeKind
    case Longitude | Latitude | Speed | Level | Qual | Snr | Cqi | DlBitrate | UlBitrate => NumberKind
    case _ => TextKind
  }

  /** The value held in one attribute. */
  datatype Value = TimeValue(time: DateTime) | NumberValue(number: Option<real>) | TextValue(text: Option<String>)
  {
    function Kind(): Kind
    {
      match this
      case TimeValue(_) => TimeKind
      case NumberValue(_) => NumberKind
      case TextValue(_) => TextKind
    }

    predicate Absent()
    {
      (NumberValue? && number.None?) || (TextValue? && text.None?)
    }
  }

  /** The attribute's name as the record spells it (and as the writer uses it
      for tag and field keys). */
  function FieldName(f: Field): String
  {
    match f
    case Timestamp => "timestamp"
    case Longitude => "longitude"
    case Latitude => "latitude"
    case Speed => "speed"
    case OperatorName => "operator_name"
    case OperatorCode => "operator_code"
    case Cgi => "cgi"
    case Cellname => "cellname"
    case Node => "node"
    case CellId => "cell_id"
    case Lac => "lac"
    case NetworkTech => "network_tech"
    case NetworkMode => "network_mode"
    case Level => "level"
    case Qual => "qual"
    case Snr => "snr"
    case Cqi => "cqi"
    case Arfcn => "arfcn"
    case DlBitrate => "dl_bitrate"
    case UlBitrate => "ul_bitrate"
  }

  function Get(r: GNetTrackRecord, f: Field): (v: Value)
    ensures v.Kind() == KindOf(f)
  {
    match f
    case Timestamp => TimeValue(r.timestamp)
    case Longitude => NumberValue(r.longitude)
    case Latitude => NumberValue(r.latitude)
    case Speed => NumberValue(r.speed)
    case OperatorName => TextValue(r.operator_name)
    case OperatorCode => TextValue(r.operator_code)
    case Cgi => TextValue(r.cgi)
    case Cellname => TextValue(r.cellname)
    case Node => TextValue(r.node)
    case CellId => TextValue(r.cell_id)
    case Lac => TextValue(r.lac)
    case NetworkTech => TextValue(r.network_tech)
    case NetworkMode => TextValue(r.network_mode)
    case Level => NumberValue(r.level)
    case Qual => NumberValue(r.qual)
    case Snr => NumberValue(r.snr)
    case Cqi => NumberValue(r.cqi)
    case Arfcn => TextValue(r.arfcn)
    case DlBitrate => NumberValue(r.dl_bitrate)
    case UlBitrate => NumberValue(r.ul_bitrate)
  }

  /** Assigning one attribute: that attribute now holds `v`, every other is
      as it was. */
  function Set(r: GNetTrackRecord, f: Field, v: Value): (r': GNetTrackRecord)
    requires v.Kind() == KindOf(f)
    ensures Get(r', f) == v
    ensures forall g :: g != f ==> Get(r', g) == Get(r, g)
  {
    match f
    case Timestamp => r.(timestamp := v.time)
    case Longitude => r.(longitude := v.number)
    case Latitude => r.(latitude := v.number)
    case Speed => r.(speed := v.number)
    case OperatorName => r.(operator_name := v.text)
    case OperatorCode => r.(operator_code := v.text)
    case Cgi => r.(cgi := v.text)
    case Cellname => r.(cellname := v.text)
    case Node => r.(node := v.text)
    case CellId => r.(cell_id := v.text)
    case Lac => r.(lac := v.text)
    case NetworkTech => r.(network_tech := v.text)
    case NetworkMode => r.(network_mode := v.text)
    case Level => r.(level := v.number)
    case Qual => r.(qual := v.number)
    case Snr => r.(snr := v.number)
    case Cqi => r.(cqi := v.number)
    case Arfcn => r.(arfcn := v.text)
    case DlBitrate => r.(dl_bitrate := v.number)
    case UlBitrate => r.(ul_bitrate := v.number)
  }

  /** The record a conversion starts from: the given time, nothing else reported. */
  function Blank(now: DateTime): (r: GNetTrackRecord)
    ensures Get(r, Timestamp) == TimeValue(now)
    ensures forall f :: f != Timestamp ==> Get(r, f).Absent()
  {
    GNetTrackRecord(now, None, None, None, None, None, None, None, None, None,
                    None, None, None, None, None, None, None, None, None, None)
  }

  /** What the core takes from its surroundings: the current time
      (`Utc::now()`), chrono's format matching, and `f64` parsing and
      display. */
  datatype Env = Env(
    now: DateTime,
    parseDateTime: FormatMatcher,
    parseFloat: String -> Option<real>,
    showFloat: real -> String)
}
