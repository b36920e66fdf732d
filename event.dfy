/** Calendar events, event series and their expansion over a window
    (src/model/event.rs). A recurrence is the finite list of occurrence
    instants its rule set yields; lemmas that need it chronological say so. */
module Events {
  import opened Common
  import opened Ical
  import opened Datetime

  datatype CalendarEvent = CalendarEvent(
    range: Range,
    summary: string,
    recurrence: Option<seq<int>>,
    recurrenceId: Option<DatePerhapsTime>,
    uid: string)

  datatype PrimitiveEvent = PrimitiveEvent(range: Range, summary: string)

  datatype EventOverride = EventOverride(range: Range, summary: string, recurrenceId: DatePerhapsTime)

  datatype EventSet = EventSet(
    uid: string,
    range: Range,
    summary: string,
    recurrence: Option<seq<int>>,
    overrides: seq<EventOverride>)

  /** The documented invariant of an event set: overrides only when it recurs. */
  type Series = s: EventSet | s.overrides != [] ==> s.recurrence.Some?
    witness EventSet("", TimeRange(Date(0), Date(0)), "", None, [])

  // ---------------------------------------------------------------------------
  // From a VEVENT to a calendar event

  /** The property is in the collected map and carries a value. */
  predicate Present(props: seq<Property>, name: string) {
    Lookup(props, name).Some? && Lookup(props, name).value.value.Some?
  }

  function ValueOf(props: seq<Property>, name: string): string
    requires Present(props, name)
  {
    Lookup(props, name).value.value.value
  }

  function ParamsOf(props: seq<Property>, name: string): Params
    requires Lookup(props, name).Some?
  {
    Lookup(props, name).value.params
  }

  /** The first of UID, DTSTART, DTEND and SUMMARY, in the order they are
      taken out of the map, that is absent or has no value. */
  function FirstMissing(props: seq<Property>): (r: Option<string>)
    ensures r.None? <==> Present(props, "UID") && Present(props, "DTSTART") && Present(props, "DTEND")
                         && Present(props, "SUMMARY")
    ensures r.Some? ==> r.value in ["UID", "DTSTART", "DTEND", "SUMMARY"] && !Present(props, r.value)
  {
    if !Present(props, "UID") then Some("UID")
    else if !Present(props, "DTSTART") then Some("DTSTART")
    else if !Present(props, "DTEND") then Some("DTEND")
    else if !Present(props, "SUMMARY") then Some("SUMMARY")
    else None
  }

  /** The resolver is defined wherever reading a RECURRENCE-ID calls it, and
      the RECURRENCE-ID, when there is one, has a value (it is unwrapped). */
  ghost predicate RecurrenceIdResolves(props: seq<Property>, fmt: Formats, localToUtc: (string, int) --> int) {
    match Lookup(props, "RECURRENCE-ID")
    case None => true
    case Some(p) => p.value.Some? && Resolves(p.value.value, p.params, fmt, localToUtc)
  }

  /** The optional RECURRENCE-ID, read as a date or date-time. */
  function RecurrenceIdOf(props: seq<Property>, fmt: Formats, localToUtc: (string, int) --> int)
    : (r: Result<Option<DatePerhapsTime>>)
    requires RecurrenceIdResolves(props, fmt, localToUtc)
    ensures Lookup(props, "RECURRENCE-ID").None? ==> r == Ok(None)
    ensures Lookup(props, "RECURRENCE-ID").Some? ==>
              var p := Lookup(props, "RECURRENCE-ID").value;
              r == match New(p.value.value, p.params, fmt, localToUtc)
                   case Ok(d) => Ok(Some(d))
                   case Err(e) => Err(e)
  {
    match Lookup(props, "RECURRENCE-ID")
    case None => Ok(None)
    case Some(p) =>
      var d :- New(p.value.value, p.params, fmt, localToUtc);
      Ok(Some(d))
  }

  /** The recurrence of an event whose range starts at instant `dtstart`: the
      RRULE's value, when it has one, the rule parses and validates; nothing
      otherwise, and never an error. */
  function RecurrenceOf(props: seq<Property>, engine: RuleEngine, dtstart: int): (r: Option<seq<int>>)
    ensures r.Some? <==> Present(props, "RRULE") && engine.parses(ValueOf(props, "RRULE"))
                         && engine.validate(ValueOf(props, "RRULE"), dtstart).Some?
    ensures r.Some? ==> r == engine.validate(ValueOf(props, "RRULE"), dtstart)
  {
    match Lookup(props, "RRULE")
    case None => None
    case Some(p) =>
      match p.value
      case None => None
      case Some(text) => if engine.parses(text) then engine.validate(text, dtstart) else None
  }

  /** Everything `from_ical_event` needs of the resolver, and the value of a
      RECURRENCE-ID it unwraps, once the required properties are there. */
  ghost predicate Resolvable(e: IcalEvent, fmt: Formats, localToUtc: (string, int) --> int) {
    var props := e.properties;
    FirstMissing(props).None? ==>
      && RangeResolves(ValueOf(props, "DTSTART"), ParamsOf(props, "DTSTART"),
                       ValueOf(props, "DTEND"), ParamsOf(props, "DTEND"), fmt, localToUtc)
      && (NewRange(ValueOf(props, "DTSTART"), ParamsOf(props, "DTSTART"),
                   ValueOf(props, "DTEND"), ParamsOf(props, "DTEND"), fmt, localToUtc).Ok?
          ==> RecurrenceIdResolves(props, fmt, localToUtc))
  }

  /** `CalendarEvent::from_ical_event`. */
  function FromIcalEvent(e: IcalEvent, fmt: Formats, engine: RuleEngine, localToUtc: (string, int) --> int)
    : (r: Result<CalendarEvent>)
    requires Resolvable(e, fmt, localToUtc)
    ensures FirstMissing(e.properties).Some? ==> r == Err(MissingProperty(FirstMissing(e.properties).value))
    ensures r.Ok? <==>
              && FirstMissing(e.properties).None?
              && NewRange(ValueOf(e.properties, "DTSTART"), ParamsOf(e.properties, "DTSTART"),
                          ValueOf(e.properties, "DTEND"), ParamsOf(e.properties, "DTEND"), fmt, localToUtc).Ok?
              && RecurrenceIdOf(e.properties, fmt, localToUtc).Ok?
    ensures r.Ok? ==>
              && r.value.uid == ValueOf(e.properties, "UID")
              && r.value.summary == ValueOf(e.properties, "SUMMARY")
              && r.value.range == NewRange(ValueOf(e.properties, "DTSTART"), ParamsOf(e.properties, "DTSTART"),
                                           ValueOf(e.properties, "DTEND"), ParamsOf(e.properties, "DTEND"),
                                           fmt, localToUtc).value
              && r.value.recurrenceId == RecurrenceIdOf(e.properties, fmt, localToUtc).value
              && r.value.recurrence == RecurrenceOf(e.properties, engine, r.value.range.start.IntoDatetime())
  {
    var props := e.properties;
    if !Present(props, "UID") then Err(MissingProperty("UID"))
    else if !Present(props, "DTSTART") then Err(MissingProperty("DTSTART"))
    else if !Present(props, "DTEND") then Err(MissingProperty("DTEND"))
    else if !Present(props, "SUMMARY") then Err(MissingProperty("SUMMARY"))
    else
      var range :- NewRange(ValueOf(props, "DTSTART"), ParamsOf(props, "DTSTART"),
                            ValueOf(props, "DTEND"), ParamsOf(props, "DTEND"), fmt, localToUtc);
      var recurrenceId :- RecurrenceIdOf(props, fmt, localToUtc);
      var recurrence := RecurrenceOf(props, engine, range.start.IntoDatetime());
      Ok(CalendarEvent(range, ValueOf(props, "SUMMARY"), recurrence, recurrenceId, ValueOf(props, "UID")))
  }

  /** Whether an event converts does not depend on its rule: a rule that does
      not parse or validate only leaves the recurrence empty. */
  lemma RuleNeverFatal(e: IcalEvent, fmt: Formats, engine: RuleEngine, other: RuleEngine,
                       localToUtc: (string, int) --> int)
    requires Resolvable(e, fmt, localToUtc)
    ensures FromIcalEvent(e, fmt, engine, localToUtc).Ok? == FromIcalEvent(e, fmt, other, localToUtc).Ok?
    ensures FromIcalEvent(e, fmt, engine, localToUtc).Ok? ==>
              FromIcalEvent(e, fmt, engine, localToUtc).value.(recurrence := None)
              == FromIcalEvent(e, fmt, other, localToUtc).value.(recurrence := None)
  {
  }

  // ---------------------------------------------------------------------------
  // Grouping same-UID events into a series

  /** The events without a recurrence id, in order. */
  function Masters(events: seq<CalendarEvent>): (r: seq<CalendarEvent>)
    ensures forall i :: 0 <= i < |r| ==> r[i].recurrenceId.None?
    ensures forall e {:trigger e in r} :: e in r <==> e in events && e.recurrenceId.None?
  {
    if events == [] then []
    else
      var last := events[|events| - 1];
      Masters(events[..|events| - 1]) + if last.recurrenceId.None? then [last] else []
  }

  function OverrideOf(event: CalendarEvent): EventOverride
    requires event.recurrenceId.Some?
  {
    EventOverride(event.range, event.summary, event.recurrenceId.value)
  }

  /** The events with a recurrence id, in order, as overrides. */
  function Overrides(events: seq<CalendarEvent>): (r: seq<EventOverride>)
    ensures forall o {:trigger o in r} :: o in r <==> exists e :: e in events && e.recurrenceId.Some? && o == OverrideOf(e)
  {
    if events == [] then []
    else
      var last := events[|events| - 1];
      Overrides(events[..|events| - 1]) + if last.recurrenceId.Some? then [OverrideOf(last)] else []
  }

  lemma {:induction false} MastersAppend(a: seq<CalendarEvent>, b: seq<CalendarEvent>)
    ensures Masters(a + b) == Masters(a) + Masters(b)
    ensures Overrides(a + b) == Overrides(a) + Overrides(b)
    decreases |b|
  {
    if b == [] {
      assert a + b == a;
    } else {
      var n := |b| - 1;
      assert (a + b)[..|a + b| - 1] == a + b[..n];
      MastersAppend(a, b[..n]);
    }
  }

  /** Every event is either the master or an override. */
  lemma {:induction false} MastersAndOverridesPartition(events: seq<CalendarEvent>)
    ensures |Masters(events)| + |Overrides(events)| == |events|
  {
    if events != [] {
      MastersAndOverridesPartition(events[..|events| - 1]);
    }
  }

  /** What `EventSet::new` decides for a group of same-UID events. */
  function EventSetOf(uid: string, events: seq<CalendarEvent>): (r: Result<Series>)
    ensures events == [] ==> r == Err(EmptySeries)
    ensures events != [] && |Masters(events)| > 1 ==> r == Err(MultipleMasters)
    ensures r.Ok? <==> && events != []
                       && |Masters(events)| == 1
                       && (Overrides(events) != [] ==> Masters(events)[0].recurrence.Some?)
    ensures r.Ok? ==> && r.value.uid == uid
                      && r.value.range == Masters(events)[0].range
                      && r.value.summary == Masters(events)[0].summary
                      && r.value.recurrence == Masters(events)[0].recurrence
                      && r.value.overrides == Overrides(events)
  {
    MastersAndOverridesPartition(events);
    var masters := Masters(events);
    var overrides := Overrides(events);
    if events == [] then Err(EmptySeries)
    else if |masters| > 1 then Err(MultipleMasters)
    else if overrides != [] && (masters == [] || masters[0].recurrence.None?) then Err(OverrideWithoutRecurrence)
    else Ok(EventSet(uid, masters[0].range, masters[0].summary, masters[0].recurrence, overrides))
  }

  /** The last error of `EventSet::new` is never reported: a non-empty group
      without a master consists of overrides only, and fails on them first. */
  lemma NoMasterUnreachable(uid: string, events: seq<CalendarEvent>)
    requires events != [] && Masters(events) == []
    ensures Overrides(events) != []
    ensures EventSetOf(uid, events) == Err(OverrideWithoutRecurrence)
  {
    MastersAndOverridesPartition(events);
  }

  /** A group with overrides but no recurring master fails as an override
      without recurrence. */
  lemma OverridesNeedRecurrence(uid: string, events: seq<CalendarEvent>)
    requires events != [] && |Masters(events)| <= 1 && Overrides(events) != []
    requires Masters(events) == [] || Masters(events)[0].recurrence.None?
    ensures EventSetOf(uid, events) == Err(OverrideWithoutRecurrence)
  {
  }

  /** Taking one more event of a group. */
  lemma MastersStep(events: seq<CalendarEvent>, i: int)
    requires 0 <= i < |events|
    ensures Masters(events[..i + 1]) == Masters(events[..i]) + if events[i].recurrenceId.None? then [events[i]] else []
    ensures Overrides(events[..i + 1]) == Overrides(events[..i]) + if events[i].recurrenceId.Some? then [OverrideOf(events[i])] else []
  {
    assert events[..i + 1][..i] == events[..i];
  }

  /** A second master anywhere in the group makes it fail. */
  lemma SecondMaster(uid: string, events: seq<CalendarEvent>, i: int)
    requires 0 <= i < |events| && Masters(events[..i]) != [] && events[i].recurrenceId.None?
    ensures EventSetOf(uid, events) == Err(MultipleMasters)
  {
    TwoMasters(events, i);
  }

  lemma TwoMasters(events: seq<CalendarEvent>, i: int)
    requires 0 <= i < |events| && Masters(events[..i]) != [] && events[i].recurrenceId.None?
    ensures |Masters(events)| > 1
  {
    MastersStep(events, i);
    assert |Masters(events[..i + 1])| > 1;
    MastersAppend(events[..i + 1], events[i + 1..]);
    assert events[..i + 1] + events[i + 1..] == events;
  }

  /** `EventSet::new`: one pass that collects the overrides and remembers the
      master, failing on a second master. */
  method NewEventSet(uid: string, events: seq<CalendarEvent>) returns (r: Result<Series>)
    ensures r == EventSetOf(uid, events)
  {
    if events == [] {
      return Err(EmptySeries);
    }
    var overrides: seq<EventOverride> := [];
    var range: Option<Range> := None;
    var summary: Option<string> := None;
    var recurrence: Option<seq<int>> := None;
    for i := 0 to |events|
      invariant overrides == Overrides(events[..i])
      invariant |Masters(events[..i])| <= 1
      invariant Masters(events[..i]) == [] ==> range.None? && summary.None? && recurrence.None?
      invariant Masters(events[..i]) != [] ==>
                  && range == Some(Masters(events[..i])[0].range)
                  && summary == Some(Masters(events[..i])[0].summary)
                  && recurrence == Masters(events[..i])[0].recurrence
    {
      MastersStep(events, i);
      var event := events[i];
      if event.recurrenceId.Some? {
        overrides := overrides + [EventOverride(event.range, event.summary, event.recurrenceId.value)];
      } else {
        if range.Some? {
          SecondMaster(uid, events, i);
          return Err(MultipleMasters);
        }
        range := Some(event.range);
        summary := Some(event.summary);
        recurrence := event.recurrence;
      }
    }
    assert events[..|events|] == events;
    MastersAndOverridesPartition(events);
    if overrides != [] && recurrence.None? {
      return Err(OverrideWithoutRecurrence);
    }
    if range.Some? && summary.Some? {
      r := Ok(EventSet(uid, range.value, summary.value, recurrence, overrides));
    } else {
      r := Err(NoMaster);
    }
  }

  // ---------------------------------------------------------------------------
  // Expanding a series over a window

  /** The occurrences strictly after `start` and strictly before `end`, in order. */
  function InWindow(occ: seq<int>, start: int, end: int): (r: seq<int>)
    ensures |r| <= |occ|
    ensures forall x :: x in r <==> x in occ && start < x < end
    ensures forall x :: multiset(r)[x] == if start < x < end then multiset(occ)[x] else 0
  {
    if occ == [] then []
    else
      var x := occ[|occ| - 1];
      assert occ == occ[..|occ| - 1] + [x];
      InWindow(occ[..|occ| - 1], start, end) + if start < x < end then [x] else []
  }

  /** The window keeps the chronological order of the occurrences. */
  lemma {:induction false} InWindowAscending(occ: seq<int>, start: int, end: int)
    requires Ascending(occ)
    ensures Ascending(InWindow(occ, start, end))
  {
    if occ != [] {
      var p := occ[..|occ| - 1];
      assert Ascending(p) by {
        forall i, j | 0 <= i < j < |p| ensures p[i] <= p[j] {
          assert p[i] == occ[i] && p[j] == occ[j];
        }
      }
      InWindowAscending(p, start, end);
      var w := InWindow(p, start, end);
      var x := occ[|occ| - 1];
      forall y | y in w ensures y <= x {
        var i :| 0 <= i < |p| && p[i] == y;
        assert occ[i] == y;
      }
      var r := InWindow(occ, start, end);
      if start < x < end {
        assert r == w + [x];
        forall i, j | 0 <= i < j < |r| ensures r[i] <= r[j] {
          assert r[i] == w[i] && w[i] in w;
          if j < |w| {
            assert r[j] == w[j];
          }
        }
      } else {
        assert r == w;
      }
    }
  }

  /** A list that lies wholly inside the window is kept whole. */
  lemma {:induction false} InWindowKeepsInside(occ: seq<int>, start: int, end: int)
    requires forall i :: 0 <= i < |occ| ==> start < occ[i] < end
    ensures InWindow(occ, start, end) == occ
  {
    if occ != [] {
      var p := occ[..|occ| - 1];
      assert forall i :: 0 <= i < |p| ==> p[i] == occ[i];
      InWindowKeepsInside(p, start, end);
      assert occ == p + [occ[|occ| - 1]];
    }
  }

  /** `create_initial_events`: the occurrences in the window, at most 100,
      each a copy of the master shifted to start there; or, without a rule,
      the master itself when it meets the window. */
  function CreateInitialEvents(s: Series, start: int, end: int): (r: seq<PrimitiveEvent>)
    ensures s.recurrence.None? ==> (r == [PrimitiveEvent(s.range, s.summary)] <==> Intersects(s.range, start, end))
    ensures s.recurrence.None? ==> (r == [] <==> !Intersects(s.range, start, end))
    ensures s.recurrence.Some? ==>
              var w := InWindow(s.recurrence.value, start, end);
              && |r| == Min(|w|, 100)
              && forall i :: 0 <= i < |r| ==> r[i] == PrimitiveEvent(WithStart(s.range, w[i]), s.summary)
  {
    match s.recurrence
    case Some(occ) =>
      var w := InWindow(occ, start, end);
      var dates := w[..Min(|w|, 100)];
      seq(|dates|, i requires 0 <= i < |dates| => PrimitiveEvent(WithStart(s.range, dates[i]), s.summary))
    case None =>
      if Intersects(s.range, start, end) then [PrimitiveEvent(s.range, s.summary)] else []
  }

  /** Every expanded occurrence of a recurring series lies inside the window,
      keeps the master's variant, duration and summary, and the expansion never
      yields more than 100 events. */
  lemma ExpandedOccurrencesInWindow(s: Series, start: int, end: int, i: int)
    requires s.recurrence.Some? && 0 <= i < |CreateInitialEvents(s, start, end)|
    ensures |CreateInitialEvents(s, start, end)| <= 100
    ensures var e := CreateInitialEvents(s, start, end)[i];
            && e.summary == s.summary
            && IsAllDay(e.range) == IsAllDay(s.range)
            && Duration(e.range) == Duration(s.range)
            && exists x :: x in s.recurrence.value && start < x < end &&
                           e.range.start == if IsAllDay(s.range) then Date(DateOf(x)) else DateTime(x)
  {
    var w := InWindow(s.recurrence.value, start, end);
    assert w[i] in w;
  }

  /** The first override whose recurrence id is `start`, as `iter().find` returns it. */
  function FindOverride(overrides: seq<EventOverride>, start: DatePerhapsTime): (r: Option<EventOverride>)
    ensures r.None? <==> forall i :: 0 <= i < |overrides| ==> overrides[i].recurrenceId != start
    ensures r.Some? ==> exists i :: 0 <= i < |overrides| && overrides[i] == r.value && r.value.recurrenceId == start
                                    && forall j :: 0 <= j < i ==> overrides[j].recurrenceId != start
  {
    if overrides == [] then None
    else if overrides[0].recurrenceId == start then Some(overrides[0])
    else
      var r := FindOverride(overrides[1..], start);
      assert forall i :: 0 <= i < |overrides| - 1 ==> overrides[1..][i] == overrides[i + 1];
      r
  }

  /** An initial event, or the override that replaces it. */
  function Splice(overrides: seq<EventOverride>, e: PrimitiveEvent): (r: PrimitiveEvent)
    ensures (forall o :: o in overrides ==> o.recurrenceId != Start(e.range)) ==> r == e
    ensures (exists o :: o in overrides && o.recurrenceId == Start(e.range)) ==>
              exists i :: && 0 <= i < |overrides|
                          && overrides[i].recurrenceId == Start(e.range)
                          && (forall j :: 0 <= j < i ==> overrides[j].recurrenceId != Start(e.range))
                          && r == PrimitiveEvent(overrides[i].range, overrides[i].summary)
  {
    match FindOverride(overrides, Start(e.range))
    case Some(o) => PrimitiveEvent(o.range, o.summary)
    case None => e
  }

  /** `create_primitives`: the initial events, each replaced by the first
      override whose recurrence id is its start. */
  function CreatePrimitives(s: Series, start: int, end: int): (r: seq<PrimitiveEvent>)
    ensures |r| == |CreateInitialEvents(s, start, end)|
    ensures forall i :: 0 <= i < |r| ==>
              var e := CreateInitialEvents(s, start, end)[i];
              match FindOverride(s.overrides, e.range.start)
              case None => r[i] == e
              case Some(o) => r[i] == PrimitiveEvent(o.range, o.summary) && o.recurrenceId == e.range.start
  {
    var initial := CreateInitialEvents(s, start, end);
    seq(|initial|, i requires 0 <= i < |initial| => Splice(s.overrides, initial[i]))
  }

  /** A series without overrides expands to its initial events. */
  lemma NoOverridesNoChange(s: Series, start: int, end: int)
    requires s.overrides == []
    ensures CreatePrimitives(s, start, end) == CreateInitialEvents(s, start, end)
  {
  }

  /** A series without a rule has no overrides, so it yields its master when
      the master meets the window, and nothing otherwise. */
  lemma NonRecurringSetYieldsItself(s: Series, start: int, end: int)
    requires s.recurrence.None?
    ensures CreatePrimitives(s, start, end)
            == if Intersects(s.range, start, end) then [PrimitiveEvent(s.range, s.summary)] else []
  {
    NoOverridesNoChange(s, start, end);
  }

  /** A daily one-hour event with three occurrences, the second of them
      moved: the expansion keeps three events and replaces only the second. */
  lemma SecondOccurrenceMoved()
    ensures var hour := TimeRange(DateTime(0), DateTime(3600));
            var moved := TimeRange(DateTime(90000), DateTime(93600));
            var s: Series := EventSet("daily", hour, "standup", Some([0, 86400, 172800]),
                                      [EventOverride(moved, "moved", DateTime(86400))]);
            CreatePrimitives(s, -1, 200000) == [
              PrimitiveEvent(hour, "standup"),
              PrimitiveEvent(moved, "moved"),
              PrimitiveEvent(TimeRange(DateTime(172800), DateTime(176400)), "standup")]
  {
    InWindowKeepsInside([0, 86400, 172800], -1, 200000);
  }
}
