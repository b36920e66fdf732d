/** Date-or-date-time values and the ranges built from them
    (src/model/datetime.rs). Instants are seconds since the Unix epoch on the
    UTC clock; dates are day numbers, day 0 being 1970-01-01. */
module Datetime {
  import opened Common

  const SecondsPerDay: int := 86400

  /** The calendar date of a UTC instant (`date_naive`); Dafny's division
      rounds down, as the calendar does before 1970. */
  function DateOf(t: int): int {
    t / SecondsPerDay
  }

  /** Days of a year that precede month `m`. */
  function DaysBeforeMonth(m: int, leap: bool): int {
    (if m > 1 then 31 else 0) + (if m > 2 then (if leap then 29 else 28) else 0) +
    (if m > 3 then 31 else 0) + (if m > 4 then 30 else 0) + (if m > 5 then 31 else 0) +
    (if m > 6 then 30 else 0) + (if m > 7 then 31 else 0) + (if m > 8 then 31 else 0) +
    (if m > 9 then 30 else 0) + (if m > 10 then 31 else 0) + (if m > 11 then 30 else 0)
  }

  /** Seconds since the epoch of a proleptic Gregorian date and time of day,
      read on the UTC clock: whole years since 1970 with their leap days, then
      the months and days of the year. */
  function Timestamp(y: int, m: int, d: int, hh: int, mm: int, ss: int): int
    requires 1 <= m <= 12
  {
    var leap := y % 4 == 0 && (y % 100 != 0 || y % 400 == 0);
    var days := 365 * (y - 1970) + (y - 1969) / 4 - (y - 1901) / 100 + (y - 1601) / 400
                + DaysBeforeMonth(m, leap) + d - 1;
    days * SecondsPerDay + hh * 3600 + mm * 60 + ss
  }

  datatype DatePerhapsTime = Date(day: int) | DateTime(instant: int) {

    /** A date-time as it is; a date at 00:00:00 UTC of that day. */
    function IntoDatetime(): (t: int)
      ensures DateTime? ==> t == instant
      ensures Date? ==> DateOf(t) == day && t % SecondsPerDay == 0
    {
      match this
      case DateTime(start) => start
      case Date(start) => start * SecondsPerDay
    }

    /** `is_date`: a whole day, which converts to a midnight instant. */
    predicate IsDate(): (b: bool)
      ensures b <==> Date?
      ensures b ==> IntoDatetime() % SecondsPerDay == 0
    {
      Date?
    }
  }

  /** Whether the parameters mark the value as a date: the VALUE parameter
      (the last one, once collected into a map) lists "DATE". */
  predicate IsDateValue(params: Params) {
    match LastParam(params, "VALUE")
    case Some(values) => "DATE" in values
    case None => false
  }

  predicate EndsWithZ(value: string) {
    |value| > 0 && value[|value| - 1] == 'Z'
  }

  /** The call `local_to_utc(zone, time)` that converting a date-time value
      makes, if it gets that far: no trailing `Z`, the local time parses, and
      TZID has exactly one value. */
  function ZoneRequest(value: string, params: Params, fmt: Formats): (r: Option<(string, int)>)
    ensures r.Some? ==> !EndsWithZ(value) && fmt.dateTime(value) == Some(r.value.1)
    ensures r.Some? ==> LastParam(params, "TZID") == Some([r.value.0])
    ensures r.Some? <==> && !EndsWithZ(value) && fmt.dateTime(value).Some?
                         && LastParam(params, "TZID").Some? && |LastParam(params, "TZID").value| == 1
  {
    if EndsWithZ(value) then None
    else match fmt.dateTime(value)
      case None => None
      case Some(time) =>
        match LastParam(params, "TZID")
        case None => None
        case Some(ids) => if |ids| == 1 then assert ids == [ids[0]]; Some((ids[0], time)) else None
  }

  /** The resolver is defined wherever converting this value calls it. */
  ghost predicate Resolves(value: string, params: Params, fmt: Formats, localToUtc: (string, int) --> int) {
    IsDateValue(params) ||
    match ZoneRequest(value, params, fmt)
    case Some(request) => localToUtc.requires(request.0, request.1)
    case None => true
  }

  /** `convert_datetime`: a value ending in `Z` is read as UTC; any other value
      is a local time whose zone is the single TZID parameter. */
  function ConvertDatetime(value: string, params: Params, fmt: Formats, localToUtc: (string, int) --> int): (r: Result<int>)
    requires ZoneRequest(value, params, fmt).Some? ==>
               localToUtc.requires(ZoneRequest(value, params, fmt).value.0, ZoneRequest(value, params, fmt).value.1)
    ensures EndsWithZ(value) ==>
              r == (match fmt.dateTime(value[..|value| - 1]) case Some(t) => Ok(t) case None => Err(MalformedValue))
    ensures !EndsWithZ(value) ==> (r.Ok? <==> ZoneRequest(value, params, fmt).Some?)
    ensures ZoneRequest(value, params, fmt).Some? ==>
              r == Ok(localToUtc(ZoneRequest(value, params, fmt).value.0, ZoneRequest(value, params, fmt).value.1))
    ensures !EndsWithZ(value) && fmt.dateTime(value).None? ==> r == Err(MalformedValue)
    ensures !EndsWithZ(value) && fmt.dateTime(value).Some? && LastParam(params, "TZID").None? ==> r == Err(MissingTimezone)
    ensures (!EndsWithZ(value) && fmt.dateTime(value).Some? && LastParam(params, "TZID").Some?
             && |LastParam(params, "TZID").value| != 1) ==> r == Err(AmbiguousTimezone)
  {
    if EndsWithZ(value) then
      match fmt.dateTime(value[..|value| - 1])
      case None => Err(MalformedValue)
      case Some(time) => Ok(time)
    else
      match fmt.dateTime(value)
      case None => Err(MalformedValue)
      case Some(time) =>
        match LastParam(params, "TZID")
        case None => Err(MissingTimezone)
        case Some(ids) =>
          if |ids| != 1 then Err(AmbiguousTimezone) else Ok(localToUtc(ids[0], time))
  }

  /** `convert_date`. */
  function ConvertDate(value: string, fmt: Formats): (r: Result<int>)
    ensures r.Ok? <==> fmt.date(value).Some?
    ensures r.Ok? ==> r.value == fmt.date(value).value
  {
    match fmt.date(value)
    case None => Err(MalformedValue)
    case Some(day) => Ok(day)
  }

  /** `DatePerhapsTime::new`: a date when VALUE lists "DATE", a date-time otherwise. */
  function New(value: string, params: Params, fmt: Formats, localToUtc: (string, int) --> int): (r: Result<DatePerhapsTime>)
    requires Resolves(value, params, fmt, localToUtc)
    ensures r.Ok? ==> (r.value.Date? <==> IsDateValue(params))
    ensures IsDateValue(params) ==> r == (match ConvertDate(value, fmt) case Ok(d) => Ok(Date(d)) case Err(e) => Err(e))
    ensures !IsDateValue(params) ==>
              r == (match ConvertDatetime(value, params, fmt, localToUtc) case Ok(t) => Ok(DateTime(t)) case Err(e) => Err(e))
  {
    if IsDateValue(params) then
      var date :- ConvertDate(value, fmt);
      Ok(Date(date))
    else
      var datetime :- ConvertDatetime(value, params, fmt, localToUtc);
      Ok(DateTime(datetime))
  }

  /** A value ending in `Z` never consults the resolver: any two resolvers give
      the same result. */
  lemma UtcValueIgnoresResolver(value: string, params: Params, fmt: Formats,
                                f: (string, int) --> int, g: (string, int) --> int)
    requires EndsWithZ(value)
    ensures ConvertDatetime(value, params, fmt, f) == ConvertDatetime(value, params, fmt, g)
  {
  }

  /** A start and an end; the source keeps both fields private and builds them
      only through `TimeRange::new`, so every range has one variant. */
  datatype TimeRange = TimeRange(start: DatePerhapsTime, end: DatePerhapsTime) {
    predicate SameVariant() {
      start.IsDate() == end.IsDate()
    }
  }

  type Range = r: TimeRange | r.SameVariant() witness TimeRange(Date(0), Date(0))

  ghost predicate RangeResolves(start: string, startParams: Params, end: string, endParams: Params,
                          fmt: Formats, localToUtc: (string, int) --> int) {
    Resolves(start, startParams, fmt, localToUtc) &&
    (New(start, startParams, fmt, localToUtc).Ok? ==> Resolves(end, endParams, fmt, localToUtc))
  }

  /** `TimeRange::new`: both ends parse and agree on the variant, or an error. */
  function NewRange(start: string, startParams: Params, end: string, endParams: Params,
                    fmt: Formats, localToUtc: (string, int) --> int): (r: Result<Range>)
    requires RangeResolves(start, startParams, end, endParams, fmt, localToUtc)
    ensures New(start, startParams, fmt, localToUtc).Err? ==> r == Err(New(start, startParams, fmt, localToUtc).error)
    ensures New(start, startParams, fmt, localToUtc).Ok? && New(end, endParams, fmt, localToUtc).Err?
            ==> r == Err(New(end, endParams, fmt, localToUtc).error)
    ensures r.Ok? <==> New(start, startParams, fmt, localToUtc).Ok? && New(end, endParams, fmt, localToUtc).Ok?
                       && New(start, startParams, fmt, localToUtc).value.IsDate() == New(end, endParams, fmt, localToUtc).value.IsDate()
    ensures r.Ok? ==> r.value.start == New(start, startParams, fmt, localToUtc).value
                      && r.value.end == New(end, endParams, fmt, localToUtc).value
    ensures (New(start, startParams, fmt, localToUtc).Ok? && New(end, endParams, fmt, localToUtc).Ok?
             && New(start, startParams, fmt, localToUtc).value.IsDate() != New(end, endParams, fmt, localToUtc).value.IsDate())
            ==> r == Err(MixedRangeVariants)
  {
    var s :- New(start, startParams, fmt, localToUtc);
    var e :- New(end, endParams, fmt, localToUtc);
    if s.IsDate() != e.IsDate() then Err(MixedRangeVariants)
    else Ok(TimeRange(s, e))
  }

  /** `start`: the first end of the range, of the same kind as the other. */
  function Start(r: Range): (s: DatePerhapsTime)
    ensures s == r.start && s.IsDate() == r.end.IsDate()
  {
    r.start
  }

  /** `is_all_day` looks at the start only; by the invariant the end agrees. */
  function IsAllDay(r: Range): (b: bool)
    ensures b <==> r.start.Date? && r.end.Date?
    ensures !b <==> r.start.DateTime? && r.end.DateTime?
  {
    r.start.Date?
  }

  /** `either`: fold a range with `f` over its two dates or with `g` over its two
      instants. There is no third case to reach. */
  function Either<T>(r: Range, f: (int, int) -> T, g: (int, int) -> T): (x: T)
    ensures IsAllDay(r) ==> x == f(r.start.day, r.end.day)
    ensures !IsAllDay(r) ==> x == g(r.start.instant, r.end.instant)
  {
    match r.start
    case Date(s) => f(s, r.end.day)
    case DateTime(s) => g(s, r.end.instant)
  }

  /** `x` lies in both closed intervals [lo1, hi1] and [lo2, hi2]. */
  predicate InBoth(x: int, lo1: int, hi1: int, lo2: int, hi2: int) {
    lo1 <= x <= hi1 && lo2 <= x <= hi2
  }

  /** Overlap with the window [ws, we]: on instants for a date-time range, on
      calendar dates for a date range. For a range whose end is not before
      its start and a window whose end is not before its start, the test
      holds exactly when the two share an instant (date-time range) or a
      calendar day (date range). */
  function Intersects(r: Range, ws: int, we: int): (b: bool)
    ensures ws <= we && !IsAllDay(r) && r.start.instant <= r.end.instant ==>
              (b <==> exists x :: InBoth(x, r.start.instant, r.end.instant, ws, we))
    ensures ws <= we && IsAllDay(r) && r.start.day <= r.end.day ==>
              (b <==> exists d :: InBoth(d, r.start.day, r.end.day, DateOf(ws), DateOf(we)))
  {
    match r.start
    case DateTime(s) =>
      var b := we >= s && ws <= r.end.instant;
      assert b && ws <= we && s <= r.end.instant ==> InBoth(if s <= ws then ws else s, s, r.end.instant, ws, we);
      b
    case Date(s) =>
      var b := DateOf(we) >= s && DateOf(ws) <= r.end.day;
      assert b && ws <= we && s <= r.end.day ==> InBoth(if s <= DateOf(ws) then DateOf(ws) else s, s, r.end.day, DateOf(ws), DateOf(we));
      b
  }

  /** End minus start, in seconds or in days according to the variant. */
  function Duration(r: Range): int {
    if IsAllDay(r) then r.end.day - r.start.day else r.end.instant - r.start.instant
  }

  /** `with_start`: the same kind of range moved to start at `n` (at the date
      of `n` for a date range), its duration kept. */
  function WithStart(r: Range, n: int): (s: Range)
    ensures IsAllDay(s) == IsAllDay(r)
    ensures Duration(s) == Duration(r)
    ensures s.start == if IsAllDay(r) then Date(DateOf(n)) else DateTime(n)
  {
    match r.start
    case DateTime(start) => TimeRange(DateTime(n), DateTime(n + (r.end.instant - start)))
    case Date(start) =>
      var day := DateOf(n);
      TimeRange(Date(day), Date(day + (r.end.day - start)))
  }

  /** Moving a range to its own start gives it back. */
  lemma WithOwnStart(r: Range)
    ensures !IsAllDay(r) ==> WithStart(r, r.start.instant) == r
    ensures IsAllDay(r) ==> WithStart(r, r.start.IntoDatetime()) == r
  {
  }
}
