/** The slice of chrono the parsers and the writer depend on. An instant in
    UTC is its distance from the Unix epoch in nanoseconds; matching text
    against one `strftime`-style format is left to the caller as a function
    (it is chrono's `NaiveDateTime::parse_from_str`, not modelled here). */
module DateTimes {
  import opened Wrappers
  import opened Text

  datatype DateTime = DateTime(epochNanos: int)

  /** `NaiveDateTime::parse_from_str(value, format)`, read as UTC. */
  type FormatMatcher = (String, String) -> Option<DateTime>

  const NanosPerSecond: int := 1_000_000_000

  /** chrono's calendar runs from 1 January of year -262143 to 31 December of
      year 262142; these are the first and last second of that range. */
  const MinEpochSeconds: int := -8334601315200
  const MaxEpochSeconds: int := 8210266876799

  /** `DateTime::from_timestamp(secs, 0)`: defined exactly on chrono's range. */
  function FromTimestamp(secs: int): (r: Option<DateTime>)
    ensures r.Some? <==> MinEpochSeconds <= secs <= MaxEpochSeconds
    ensures r.Some? ==> r.value.epochNanos == secs * NanosPerSecond
  {
    if MinEpochSeconds <= secs <= MaxEpochSeconds then Some(DateTime(secs * NanosPerSecond)) else None
  }

  /** `timestamp_nanos_opt`: the nanosecond count when it fits in an `i64`. */
  function TimestampNanosOpt(t: DateTime): (r: Option<int>)
    ensures r.Some? <==> I64Min <= t.epochNanos <= I64Max
    ensures r.Some? ==> r.value == t.epochNanos
  {
    if I64Min <= t.epochNanos <= I64Max then Some(t.epochNanos) else None
  }

  function MatchFormat(matcher: FormatMatcher, value: String, format: String): Option<DateTime>
  {
    matcher(value, format)
  }

  /** The `for format in &formats { if let Ok(..) = parse_from_str(..) { return .. } }`
      search: the instant given by the first format in the list that matches. */
  function FirstMatch(matcher: FormatMatcher, value: String, formats: seq<String>): (r: Option<DateTime>)
    ensures r.None? <==> forall k :: 0 <= k < |formats| ==> MatchFormat(matcher, value, formats[k]).None?
    ensures r.Some? ==> exists k :: 0 <= k < |formats| && r == MatchFormat(matcher, value, formats[k])
                                    && forall j :: 0 <= j < k ==> MatchFormat(matcher, value, formats[j]).None?
  {
    if formats == [] then None
    else
      var here := MatchFormat(matcher, value, formats[0]);
      if here.Some? then here
      else
        var rest := FirstMatch(matcher, value, formats[1..]);
        assert forall k :: 1 <= k < |formats| ==> formats[k] == formats[1..][k - 1];
        rest
  }

  /** First match wins: once format `k` matches and no earlier one does, the
      result is format `k`'s instant. */
  lemma {:induction false} FirstMatchAt(matcher: FormatMatcher, value: String, formats: seq<String>, k: nat)
    requires k < |formats| && MatchFormat(matcher, value, formats[k]).Some?
    requires forall j :: 0 <= j < k ==> MatchFormat(matcher, value, formats[j]).None?
    ensures FirstMatch(matcher, value, formats) == MatchFormat(matcher, value, formats[k])
  {
    if k > 0 {
      assert MatchFormat(matcher, value, formats[0]).None?;
      FirstMatchAt(matcher, value, formats[1..], k - 1);
    }
  }

  /** A format that never matches can be dropped from the list without
      changing the outcome. */
  lemma {:induction false} FirstMatchSkipsDead(matcher: FormatMatcher, value: String, formats: seq<String>, k: nat)
    requires k < |formats| && MatchFormat(matcher, value, formats[k]).None?
    ensures FirstMatch(matcher, value, formats) == FirstMatch(matcher, value, formats[..k] + formats[k + 1..])
  {
    if k > 0 {
      var rest := formats[..k] + formats[k + 1..];
      assert rest[0] == formats[0];
      assert rest[1..] == formats[1..][..k - 1] + formats[1..][k..];
      FirstMatchSkipsDead(matcher, value, formats[1..], k - 1);
    } else {
      assert formats[..k] + formats[k + 1..] == formats[1..];
    }
  }
}
