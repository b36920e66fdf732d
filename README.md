# icaliada core, modelled in Dafny

icaliada is a small web service that merges several iCalendar (RFC 5545)
calendars into one feed. A feed opens with a private token, which shows
everything, or with a public token, which shows free/busy times only. This
project models the temporal core of that service and proves properties of it:

- date-or-date-time values and the time ranges built from them;
- the conversion of a local time to UTC through the transitions of a
  VTIMEZONE block;
- the conversion of a VEVENT into a calendar event, and the grouping of
  same-UID events into a series (one master plus its overrides);
- the expansion of a series over a time window, with overrides spliced in;
- feed assembly: zone lookup, dropped failures, grouping by UID, the
  concatenation across calendars and the "Busy" anonymisation;
- token lookup in the configuration, and TEXT unescaping.

Times are integers:

- a UTC instant is seconds since 1970-01-01T00:00:00Z;
- a naive local time is seconds on a clock read as if it were UTC, as the
  source does for the rrule crate;
- a date is a day number, day 0 being 1970-01-01;
- an offset is seconds east of UTC.

A recurrence rule is the finite list of instants its rule set yields. The
model does not assume that this list is chronological; the lemmas that need
that order, such as `Timezones.LastAtOrBeforeIsLatest` and
`Events.InWindowAscending`, require it. The foreign libraries are parameters:

- the chrono parsers are `Common.Formats`;
- the rrule crate is `Common.RuleEngine`;
- the `local_to_utc` closure is a partial function `(string, int) --> int`.

A call the source makes through `unwrap` is a precondition of the call.

One module per file: `Common` (common.dfy), `Ical` (ical.dfy, the tokenized
input), `Utils` (utils.dfy), `Datetime` (datetime.dfy), `Timezones`
(timezone.dfy), `Events` (event.dfy), `Config` (config.dfy) and `Feeds`
(feeds.dfy).

Points where the model keeps behaviour of the code that a reader might not
expect:

- An override replaces an occurrence when its RECURRENCE-ID equals the start
  of the occurrence *after* the shift by `with_start`. For a date range this
  start is a date.
- The bounds of the overlap test for a series without a rule are inclusive.
- The last error of `EventSet::new` ("one event without recurrence id") can
  never be reported. `Events.NoMasterUnreachable` proves this. The
  function `Events.EventSetOf` has no such branch; the method
  `Events.NewEventSet` keeps it, as the source does.
- `unescape` replaces `\n` twice, and it decodes `\\` last. The model keeps
  both as written. `Utils.RepeatedNewlineStepIsNoOp` and
  `Utils.EscapedBackslashBeforeN` state what follows from them.

## Model

| member | source | states |
|---|---|---|
| Common.LastParam | src/model/datetime.rs:34-39 | collecting parameters into a map keeps the last value under each name: None iff no entry has the name, else the value of the last such entry |
| Ical.Lookup | src/model/event.rs:26-30 | collecting properties by name keeps the last property of each name: None iff none has the name, else a property with that name and none after it |
| Ical.FindFirst | src/model/timezone/mod.rs:93-97 | `find` returns the first property with the name: None iff none has it, else no earlier property has it |
| Utils.ReplacePair | src/service/utils.rs:3-7 | one `replace` of a two-character escape never lengthens the text and leaves text without the escape's first character alone |
| Utils.ReplaceWithoutPair | src/service/utils.rs:3-7 | text without the escape pair is returned unchanged by a replace step |
| Utils.ReplaceHead | src/service/utils.rs:3-7 | the first output character is the replacement if the text starts with the pair, else the first input character |
| Utils.ReplaceLeavesNoPair | src/service/utils.rs:4-5 | when the replacement is neither character of the pair, no occurrence of the pair survives a replace step |
| Utils.RepeatedNewlineStepIsNoOp | src/service/utils.rs:4-5 | the second `\n` replacement never changes the text left by the first |
| Utils.Unescape | src/service/utils.rs:1-8 | unescaping never lengthens the text, and text without a backslash is returned unchanged |
| Utils.UnescapeDecodesEscapes | src/service/utils.rs:2-7 | each of the escapes `\,` `\;` `\n` `\\` of section 3.3.11 of RFC 5545 decodes to its character |
| Utils.EscapedBackslashBeforeN | src/service/utils.rs:4-7 | because `\\` is decoded last, an escaped backslash followed by `n` becomes a backslash and a newline, not a backslash and the letter n |
| Datetime.DatePerhapsTime.IntoDatetime | src/model/datetime.rs:13-20 | a date-time is returned unchanged; a date becomes an instant on that calendar day at 00:00:00 UTC |
| Datetime.DatePerhapsTime.IsDate | src/model/datetime.rs:22-27 | holds exactly for the date variant, whose instant is a midnight |
| Datetime.ZoneRequest | src/model/datetime.rs:144-153 | the resolver call a local date-time makes: it is made exactly when there is no trailing Z, the time parses and TZID has exactly one value, and it names that value and that time |
| Datetime.ConvertDatetime | src/model/datetime.rs:128-155 | a value ending in Z is its parsed time read as UTC; otherwise a parse failure, a missing TZID and a TZID without exactly one value are three distinct errors, and success is exactly the resolver applied to that TZID and time |
| Datetime.UtcValueIgnoresResolver | src/model/datetime.rs:134-142 | a value ending in Z gives the same result under any two resolvers: it never calls `local_to_utc` |
| Datetime.ConvertDate | src/model/datetime.rs:157-160 | succeeds exactly when the date parses, with the parsed day |
| Datetime.New | src/model/datetime.rs:29-48 | a successful result is a date exactly when the VALUE parameter lists DATE; errors of the chosen conversion pass through |
| Datetime.NewRange | src/model/datetime.rs:89-105 | succeeds exactly when both ends convert and agree on the variant, keeping both ends; the start's error comes first; when the start converts, the end's own error passes through; a mixed pair is MixedRangeVariants |
| Datetime.Start | src/model/datetime.rs:107-109 | the start of the range, of the same variant as its end |
| Datetime.IsAllDay | src/model/datetime.rs:82-87 | holds iff both ends are dates, and fails iff both are date-times: a range never mixes |
| Datetime.Either | src/model/datetime.rs:60-70 | applies `f` to the two days of a date range and `g` to the two instants of a date-time range; no third case exists |
| Datetime.Intersects | src/model/datetime.rs:72-80 | for well-ordered ranges and windows the test holds exactly when the range and the window share an instant, or, for a date range, a calendar day |
| Datetime.WithStart | src/model/datetime.rs:111-125 | the shifted range keeps the variant and the duration and starts at the new instant, or at its date for a date range |
| Datetime.WithOwnStart | src/model/datetime.rs:111-125 | shifting a range to its own start gives the range back |
| Timezones.LastAtOrBefore | src/model/timezone/mod.rs:35-41 | the take-while result is None iff the list is empty or starts after t, else an occurrence at or before t |
| Timezones.LastAtOrBeforeIsLatest | src/model/timezone/mod.rs:35-41 | on a chronological list it is the latest occurrence at or before t, and None iff every occurrence is after t |
| Timezones.LastAtOrBeforeStopsAt | src/model/timezone/mod.rs:35-41 | when occurrences 0..i are at or before t and the next is after, the result is occurrence i |
| Timezones.ScanLatest | src/model/timezone/mod.rs:31-54 | the first loop ends with nothing iff no transition has an occurrence at or before t |
| Timezones.ScanLatestChoice | src/model/timezone/mod.rs:31-54 | when the first loop finds something, it is the latest occurrence at or before t over all transitions and the `to` offset of its transition, ties going to the earlier transition |
| Timezones.ScanEarliest | src/model/timezone/mod.rs:61-78 | the fallback loop ends with nothing iff no transition has any occurrence |
| Timezones.ScanEarliestChoice | src/model/timezone/mod.rs:61-78 | otherwise it is the smallest first occurrence and the `from` offset of its transition, ties going to the earlier transition |
| Timezones.ToUtc | src/model/timezone/mod.rs:27-86 | the UTC instant is t minus the `to` offset of the latest transition at or before t, ties going to the earlier transition, and, when t precedes every transition, t minus the `from` offset of the transition that starts first |
| Timezones.ToUtcAfterTransition | src/model/timezone/mod.rs:31-85 | once some transition has occurred by t, the UTC instant is t minus the `to` offset of the latest transition |
| Timezones.ToUtcBeforeHistory | src/model/timezone/mod.rs:56-85 | when t precedes every transition, the UTC instant is t minus the `from` offset of the transition that starts first |
| Timezones.ChoiceExists | src/model/timezone/mod.rs:56-80 | for a zone with an occurrence one of the two cases always applies, so the final unwrap never fails |
| Timezones.LocalToUtc | src/model/timezone/mod.rs:27-86 | the two loops compute the UTC instant of the latest-transition rule, falling back to the earliest transition |
| Timezones.Insert | src/model/timezone/mod.rs:177-183 | inserting into a chronological list keeps it chronological and adds exactly one element |
| Timezones.SortedTimes | src/model/timezone/mod.rs:177-183 | the explicit dates, put in the chronological order of the rule set, are sorted and are a permutation of the input |
| Timezones.ExplicitOccurrencesAppend | src/model/timezone/mod.rs:136-150 | the DTSTART and RDATE times of a block are those of each part of its properties, in property order |
| Timezones.TransitionOf | src/model/timezone/mod.rs:113-187 | the offsets are the last TZOFFSETFROM and TZOFFSETTO values; with an RRULE the occurrences are those of the rule validated against DTSTART; without one they are exactly the DTSTART and RDATE times, as a chronological permutation |
| Timezones.ParseTransition | src/model/timezone/mod.rs:113-187 | the property loop yields the last TZOFFSETFROM and TZOFFSETTO offsets, the validated rule when there is an RRULE, and the sorted explicit dates otherwise |
| Timezones.TzidOf | src/model/timezone/mod.rs:93-99 | the id is the unescaped value of the first TZID property; it is None exactly when there is no TZID or the first one has no value |
| Timezones.TimezoneOf | src/model/timezone/mod.rs:92-110 | an error exactly when no first TZID has a value; otherwise the unescaped id and one transition per block, in order |
| Timezones.TryFrom | src/model/timezone/mod.rs:92-110 | the loop that pushes the parsed transitions builds that timezone |
| Timezones.NewYorkDates0 | src/model/timezone/mod.rs:195-210 | the EST transition instants of the New York table are 02:00 local on the dates named |
| Timezones.NewYorkDates1 | src/model/timezone/mod.rs:195-210 | the EDT transition instants of the New York table are 02:00 local on the dates named |
| Timezones.NewYork19670415 | src/model/timezone/mod.rs:196 | 1967-04-15T00:00 New York time is 05:00Z |
| Timezones.NewYork19670515 | src/model/timezone/mod.rs:197 | 1967-05-15T00:00 is 04:00Z |
| Timezones.NewYork19800426 | src/model/timezone/mod.rs:198 | 1980-04-26T00:00 is 05:00Z |
| Timezones.NewYork19800428 | src/model/timezone/mod.rs:199 | 1980-04-28T00:00 is 04:00Z |
| Timezones.NewYork19801025 | src/model/timezone/mod.rs:200 | 1980-10-25T00:00 is 04:00Z |
| Timezones.NewYork19801027 | src/model/timezone/mod.rs:201 | 1980-10-27T00:00 is 05:00Z |
| Timezones.NewYork20001220 | src/model/timezone/mod.rs:202 | 2000-12-20T00:00 is 05:00Z |
| Timezones.NewYork20100313 | src/model/timezone/mod.rs:203 | 2010-03-13T00:00 is 05:00Z |
| Timezones.NewYork20100315 | src/model/timezone/mod.rs:204 | 2010-03-15T00:00 is 04:00Z |
| Timezones.NewYork20101106 | src/model/timezone/mod.rs:205 | 2010-11-06T00:00 is 04:00Z |
| Timezones.NewYork20101108 | src/model/timezone/mod.rs:206 | 2010-11-08T00:00 is 05:00Z |
| Timezones.MoscowDates0 | src/model/timezone/mod.rs:212-219 | the MSK transition instants of the Moscow table are the local times named |
| Timezones.MoscowDates1 | src/model/timezone/mod.rs:212-219 | the MSD transition instants of the Moscow table are the local times named |
| Timezones.Moscow20101030 | src/model/timezone/mod.rs:213 | 2010-10-30T02:00 Moscow time is 2010-10-29T22:00Z |
| Timezones.Moscow20101101 | src/model/timezone/mod.rs:214 | 2010-11-01T02:00 is 2010-10-31T23:00Z |
| Timezones.Moscow20151101 | src/model/timezone/mod.rs:215 | 2015-11-01T02:00 is 2015-10-31T23:00Z |
| Events.FirstMissing | src/model/event.rs:32-40 | names the first of UID, DTSTART, DTEND, SUMMARY that is absent or valueless, and is None iff all four carry a value |
| Events.RecurrenceIdOf | src/model/event.rs:38-56 | no RECURRENCE-ID is no recurrence id; a present one is converted like any date-time, its errors being fatal |
| Events.RecurrenceOf | src/model/event.rs:41-81 | a recurrence exactly when RRULE has a value that parses and validates against the start, and then the validated rule; never an error |
| Events.FromIcalEvent | src/model/event.rs:21-90 | a missing required property is that error; success exactly when all four are there, the range converts and the recurrence id converts; the fields come from those properties |
| Events.RuleNeverFatal | src/model/event.rs:41-81 | whether an event converts, and every field but the recurrence, do not depend on the rule engine |
| Events.Masters | src/model/event.rs:194-209 | an event is a master of a group exactly when it is in the group and has no recurrence id |
| Events.Overrides | src/model/event.rs:194-209 | an override is collected from a group exactly when some event of the group has a recurrence id and carries its range, summary and recurrence id |
| Events.MastersAppend | src/model/event.rs:194-209 | masters and overrides of a concatenation are those of the parts, in order |
| Events.MastersAndOverridesPartition | src/model/event.rs:194-209 | every event is either a master or an override |
| Events.EventSetOf | src/model/event.rs:188-228 | an empty group and a group with two masters fail; success exactly when there is one master and overrides only when it recurs; the set takes the master's fields and the overrides in input order |
| Events.OverridesNeedRecurrence | src/model/event.rs:211-216 | a group with at most one master and some overrides, whose master is missing or has no rule, fails as an override without recurrence |
| Events.NoMasterUnreachable | src/model/event.rs:211-227 | a non-empty group without a master consists of overrides and fails as "override without recurrence", so the last error is unreachable |
| Events.NewEventSet | src/model/event.rs:188-228 | the loop that pushes overrides and remembers the master decides exactly as above |
| Events.InWindow | src/model/event.rs:131 | keeps exactly the occurrences strictly inside the window, each as often as it occurs, and drops the others |
| Events.InWindowAscending | src/model/event.rs:131-145 | the kept occurrences stay in chronological order |
| Events.InWindowKeepsInside | src/model/event.rs:131 | occurrences all inside the window are kept whole |
| Events.CreateInitialEvents | src/model/event.rs:121-158 | without a rule: the master iff it meets the window, else nothing; with one: the first min(n, 100) occurrences in the window, each the master shifted there |
| Events.ExpandedOccurrencesInWindow | src/model/event.rs:127-145 | each expanded event lies at an occurrence strictly inside the window, keeps the master's summary, variant and duration, and there are at most 100 |
| Events.FindOverride | src/model/event.rs:171-174 | the first override whose recurrence id is the given start, None iff there is none |
| Events.Splice | src/model/event.rs:170-184 | an initial event is kept when no override names its start; otherwise it becomes the range and summary of the first override whose recurrence id is that start |
| Events.CreatePrimitives | src/model/event.rs:161-186 | same length and order as the initial events, each replaced by the first matching override or kept |
| Events.NoOverridesNoChange | src/model/event.rs:161-186 | without overrides the initial events pass through |
| Events.NonRecurringSetYieldsItself | src/model/event.rs:147-186 | a series without a rule yields its master when it meets the window and nothing otherwise |
| Events.SecondOccurrenceMoved | src/model/event.rs:161-186 | a daily series with its second occurrence overridden yields the first and third unchanged and the override in second place |
| Config.FindFeed | src/service/config.rs:21-24 | the first feed that the token opens; None iff none does |
| Config.AppConfig.GetFeedByToken | src/service/config.rs:19-25 | a found feed is a configured feed that the token opens as private or public token; None iff no feed does |
| Config.FirstFeedWins | src/service/config.rs:21 | a feed the token opens, with no earlier one opening it, is the feed found |
| Config.SameCalendar | src/service/config.rs:77-81 | two sources are equal exactly when they are the same value, their URL |
| Config.CalendarHash | src/service/config.rs:85-89 | the hash is that of the URL, so every source with the same URL hashes the same |
| Config.CalendarEqualityIsConsistent | src/service/config.rs:77-89 | equality of sources is equality of URLs, and equal sources hash equally under every hasher |
| Feeds.OksAppend | src/service/feeds.rs:128-143 | dropping failures commutes with concatenation: a failure does not disturb the others |
| Feeds.Oks | src/service/feeds.rs:128-143 | never longer than its input; a value survives exactly when it is the value of some success |
| Feeds.IndexById | src/service/feeds.rs:125-130 | every zone in the map is filed under its own id and is one of the successful conversions |
| Feeds.Resolver | src/service/feeds.rs:138-140 | the closure can be called for every known id of a zone with an occurrence, and gives that zone's UTC instant |
| Feeds.IndexByIdLastWins | src/service/feeds.rs:125-130 | a zone that fails to convert is skipped; every id some zone converts to is in the map, bound to the last zone with that id |
| Feeds.GroupByUid | src/service/feeds.rs:144-146 | every event's UID is a key, and every group is non-empty and holds only events of the input with that UID |
| Feeds.WithUid | src/service/feeds.rs:144-146 | the reference filter: an event is kept exactly when it is in the input and has the UID |
| Feeds.GroupsAreFilters | src/service/feeds.rs:144-146 | the groups are exactly the UIDs present, each holding the events with that UID in input order |
| Feeds.Gather | src/service/feeds.rs:148-156 | every gathered event is an event of some listed group |
| Feeds.GatherCovers | src/service/feeds.rs:148-156 | every event of every listed group is gathered |
| Feeds.GatherAppend | src/service/feeds.rs:148-156 | the expansion over two runs of keys is the concatenation of the two |
| Feeds.GatherOrderIrrelevant | src/service/feeds.rs:148-156 | any two orders of the same keys give the same events with the same multiplicities, so the map's iteration order only permutes the output |
| Feeds.CollectZones | src/service/feeds.rs:125-130 | the zone loop builds the id map of the zones that convert |
| Feeds.GroupEvents | src/service/feeds.rs:132-146 | the event loop builds the UID groups of the events that convert |
| Feeds.ExpandGroups | src/service/feeds.rs:148-156 | every group is visited once, and the output is the concatenation of each valid series' primitives in that order, invalid groups contributing nothing |
| Feeds.CreateEvents | src/service/feeds.rs:119-157 | `create_events` yields the primitives of the valid series of the document's UID groups, in an order that enumerates the groups |
| Feeds.CollectEvents | src/service/feeds.rs:109-116 | the events of a download are the `create_events` results of its documents, appended in document order |
| Feeds.Successful | src/service/feeds.rs:53-64 | an event is in the merged list exactly when it is an event of some calendar that was retrieved successfully |
| Feeds.SuccessfulAppend | src/service/feeds.rs:53-64 | the events of two runs of calendars are those of each run, concatenated in order |
| Feeds.FailedCalendarContributesNothing | src/service/feeds.rs:56-64 | a calendar whose retrieval fails contributes nothing, and the others keep their order |
| Feeds.Anonymize | src/service/feeds.rs:65-74 | same length; every event keeps its range and has summary "Busy" |
| Feeds.GetFeed | src/service/feeds.rs:35-78 | InvalidToken iff the token opens no feed; for the public token the anonymised events of the successful calendars in order, otherwise those events unchanged |
| Feeds.PublicTokenHidesOnlySummaries | src/service/feeds.rs:45-75 | a feed's public token shows as many events as its private token, at the same ranges in the same order, each summary "Busy" |

## Left out

- The rrule crate: parsing an RRULE, validating it, and expanding a rule set with `after`, `before` and `all(100)`. A rule is a finite list of its occurrences, given by `Common.RuleEngine`. Its order is not assumed: the lemmas that need chronological order require it.
- Events.InWindow: whether the crate's `after(start).before(end)` bounds are strict or inclusive is a property of the rrule crate, which is not part of this model. The model assumes both bounds are strict (`start < x < end`).
- The re-pinning of UNTIL to UTC midnight for all-day events (src/model/event.rs:63-72) and to the `from` offset in timezones (src/model/timezone/mod.rs:166-172), and the `.limit()` call. These belong to the rule engine.
- The duplicate removal of an `RRuleSet` with repeated RDATEs. The explicit dates are sorted as a multiset.
- chrono parsing and formatting (`%Y%m%dT%H%M%S`, `%Y%m%d`, offsets, RFC 3339). These are the partial functions of `Common.Formats`.
- The ical tokenizer (`IcalParser`, `reader.flatten()`). A document arrives parsed, as `Ical.IcalCalendar`.
- Network download, the moka cache, and the concurrency of `join_all`. Each calendar's outcome is a parameter of `Feeds.GetFeed`.
- `AppConfig::load`: it reads files and the environment.
- HTTP routes, templates, startup and `main`: they are plumbing.
- `tracing` log calls: they have no behavioural effect.
- The removals from the property map in `from_ical_event` are modelled as lookups. Each name is removed once, so this is the same.
- Integer bounds: instants, days and offsets are unbounded integers. chrono's bounded date range is not modelled, nor is the overflow panic of `new_start + (end - start)` in `with_start` (src/model/datetime.rs:111-125).
- Panics: each `unwrap` of the source is a precondition of the call. Examples are an unknown zone id, a zone without occurrences, and an unparsable DTSTART in a transition.
- The New York and Moscow fixture calendars (`test-tz-new-york.ics`, `test-tz-moscow.ics`) are not part of this model. `Timezones.NewYork` and `Timezones.Moscow` are equivalent tables of the transitions around the test dates.
- Feeds.CreateEvents: the iteration order of the grouped map is not modelled. The method returns the order it used, and `Feeds.GatherOrderIrrelevant` shows that the order only permutes the output.
