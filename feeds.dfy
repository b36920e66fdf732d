/** Feed assembly (src/service/feeds.rs): from a parsed calendar document to
    the primitive events of a window, and from a token to the events of all
    the calendars of its feed. Fetching, caching and the tokenizer are not
    part of this model: a document arrives parsed and a calendar's outcome
    arrives as a value. */
module Feeds {
  import opened Common
  import opened Ical
  import opened Datetime
  import opened Timezones
  import opened Events
  import opened Config

  // ---------------------------------------------------------------------------
  // Filtering and indexing, independent of what is filtered

  /** The successful values, in order (`filter_map(.. .ok())`). */
  function Oks<T(!new)>(results: seq<Result<T>>): (r: seq<T>)
    ensures |r| <= |results|
    ensures forall v :: v in r <==> Ok(v) in results
  {
    if results == [] then []
    else
      assert results == results[..|results| - 1] + [results[|results| - 1]];
      Oks(results[..|results| - 1]) +
      match results[|results| - 1]
      case Ok(v) => [v]
      case Err(_) => []
  }

  /** A failure leaves the other values as they are. */
  lemma {:induction false} OksAppend<T(!new)>(a: seq<Result<T>>, b: seq<Result<T>>)
    ensures Oks(a + b) == Oks(a) + Oks(b)
    decreases |b|
  {
    if b == [] {
      assert a + b == a;
    } else {
      var n := |b| - 1;
      assert (a + b)[..|a + b| - 1] == a + b[..n];
      OksAppend(a, b[..n]);
    }
  }

  /** The parts, concatenated in order. */
  function Concat<T>(parts: seq<seq<T>>): seq<T> {
    if parts == [] then [] else Concat(parts[..|parts| - 1]) + parts[|parts| - 1]
  }

  lemma {:induction false} ConcatAppend<T>(a: seq<seq<T>>, b: seq<seq<T>>)
    ensures Concat(a + b) == Concat(a) + Concat(b)
    decreases |b|
  {
    if b == [] {
      assert a + b == a;
    } else {
      var n := |b| - 1;
      assert (a + b)[..|a + b| - 1] == a + b[..n];
      ConcatAppend(a, b[..n]);
    }
  }

  /** An element of the concatenation comes from some part, and every part's
      elements are in it. */
  lemma {:induction false} ConcatMembership<T>(parts: seq<seq<T>>, x: T)
    ensures x in Concat(parts) <==> exists p :: p in parts && x in p
  {
    if parts != [] {
      var n := |parts| - 1;
      ConcatMembership(parts[..n], x);
      assert parts == parts[..n] + [parts[n]];
    }
  }

  /** The elements of the successful parts are exactly those of some success. */
  lemma OkPartsMembership<T(!new)>(results: seq<Result<seq<T>>>)
    ensures forall x :: x in Concat(Oks(results)) <==> exists v :: Ok(v) in results && x in v
  {
    forall x
      ensures x in Concat(Oks(results)) <==> exists v :: Ok(v) in results && x in v
    {
      ConcatMembership(Oks(results), x);
    }
  }

  // ---------------------------------------------------------------------------
  // Timezones of a document

  /** The conversion of every VTIMEZONE block. */
  function ZoneResults(zones: seq<IcalTimeZone>, fmt: Formats, engine: RuleEngine): (r: seq<Result<Timezone>>)
    requires forall i :: 0 <= i < |zones| ==> ZoneParses(zones[i], fmt, engine)
    ensures |r| == |zones| && forall i :: 0 <= i < |r| ==> r[i] == TimezoneOf(zones[i], fmt, engine)
  {
    seq(|zones|, i requires 0 <= i < |zones| => TimezoneOf(zones[i], fmt, engine))
  }

  /** The converted zones keyed by id, as `filter_map` and `collect` build the
      map: a later zone with the same id replaces an earlier one. */
  function IndexById(results: seq<Result<Timezone>>): (m: map<string, Timezone>)
    ensures forall id :: id in m ==> m[id].id == id
    ensures forall id :: id in m ==> Ok(m[id]) in results
  {
    if results == [] then map[]
    else
      var m := IndexById(results[..|results| - 1]);
      match results[|results| - 1]
      case Ok(tz) => m[tz.id := tz]
      case Err(_) => m
  }

  predicate HasId(result: Result<Timezone>, id: string) {
    result.Ok? && result.value.id == id
  }

  /** A failed conversion is skipped; every id some conversion yields is in the
      map, bound to the last zone with that id. */
  lemma {:induction false} IndexByIdLastWins(results: seq<Result<Timezone>>, id: string)
    ensures id in IndexById(results) <==> exists i :: 0 <= i < |results| && HasId(results[i], id)
    ensures id in IndexById(results) ==>
              exists i :: && 0 <= i < |results|
                          && results[i] == Ok(IndexById(results)[id])
                          && forall j :: i < j < |results| ==> !HasId(results[j], id)
  {
    if results != [] {
      var n := |results| - 1;
      var p := results[..n];
      assert forall i :: 0 <= i < n ==> p[i] == results[i];
      IndexByIdLastWins(p, id);
      var m := IndexById(results);
      if HasId(results[n], id) {
        assert results[n] == Ok(m[id]);
      } else {
        assert (id in m) == (id in IndexById(p));
        if id in IndexById(p) {
          var i :| && 0 <= i < n
                   && p[i] == Ok(IndexById(p)[id])
                   && forall j :: i < j < n ==> !HasId(p[j], id);
          assert results[i] == Ok(m[id]) && HasId(results[i], id);
          assert forall j :: i < j < |results| ==> !HasId(results[j], id);
        } else {
          assert forall i :: 0 <= i < |results| ==> !HasId(results[i], id);
        }
      }
    }
  }

  /** The zones of a document by id. */
  function ZoneMapOf(zones: seq<IcalTimeZone>, fmt: Formats, engine: RuleEngine): map<string, Timezone>
    requires forall i :: 0 <= i < |zones| ==> ZoneParses(zones[i], fmt, engine)
  {
    IndexById(ZoneResults(zones, fmt, engine))
  }

  /** The `local_to_utc` closure handed to event conversion: look the zone up
      and convert. Both unwraps of the source (an unknown id, a zone without
      any occurrence) are outside its domain. */
  function Resolver(zones: map<string, Timezone>): (f: (string, int) --> int)
    ensures forall id, t :: id in zones && zones[id].HasOccurrence() ==> f.requires(id, t)
    ensures forall id, t :: id in zones && zones[id].HasOccurrence() ==> f(id, t) == ToUtc(zones[id], t)
  {
    (id: string, t: int) requires id in zones && zones[id].HasOccurrence() => ToUtc(zones[id], t)
  }

  // ---------------------------------------------------------------------------
  // Events of a document, grouped by UID

  /** The conversion of every VEVENT. */
  function EventResults(events: seq<IcalEvent>, fmt: Formats, engine: RuleEngine, resolve: (string, int) --> int)
    : (r: seq<Result<CalendarEvent>>)
    requires forall i :: 0 <= i < |events| ==> Resolvable(events[i], fmt, resolve)
    ensures |r| == |events| && forall i :: 0 <= i < |r| ==> r[i] == FromIcalEvent(events[i], fmt, engine, resolve)
  {
    seq(|events|, i requires 0 <= i < |events| => FromIcalEvent(events[i], fmt, engine, resolve))
  }

  /** The `entry(uid).or_default().push(event)` loop as a fold. */
  function GroupByUid(events: seq<CalendarEvent>): (m: map<string, seq<CalendarEvent>>)
    ensures forall i :: 0 <= i < |events| ==> events[i].uid in m
    ensures forall uid :: uid in m ==> m[uid] != [] && forall e :: e in m[uid] ==> e.uid == uid && e in events
  {
    if events == [] then map[]
    else
      var m := GroupByUid(events[..|events| - 1]);
      var e := events[|events| - 1];
      m[e.uid := (if e.uid in m then m[e.uid] else []) + [e]]
  }

  /** The events with the given UID, in order. */
  function WithUid(events: seq<CalendarEvent>, uid: string): (r: seq<CalendarEvent>)
    ensures forall i :: 0 <= i < |r| ==> r[i].uid == uid
    ensures r == [] <==> forall i :: 0 <= i < |events| ==> events[i].uid != uid
    ensures forall e :: e in r <==> e in events && e.uid == uid
  {
    if events == [] then []
    else
      var e := events[|events| - 1];
      WithUid(events[..|events| - 1], uid) + if e.uid == uid then [e] else []
  }

  /** The groups are exactly the UIDs that occur, each holding the events
      with that UID in their original order. */
  lemma {:induction false} GroupsAreFilters(events: seq<CalendarEvent>, uid: string)
    ensures uid in GroupByUid(events) <==> WithUid(events, uid) != []
    ensures uid in GroupByUid(events) ==> GroupByUid(events)[uid] == WithUid(events, uid)
  {
    if events != [] {
      GroupsAreFilters(events[..|events| - 1], uid);
    }
  }

  // ---------------------------------------------------------------------------
  // Series of a document, expanded in map order

  /** The order lists every key once. */
  ghost predicate Enumerates(order: seq<string>, keys: set<string>) {
    && (forall i, j :: 0 <= i < j < |order| ==> order[i] != order[j])
    && (forall u :: u in order <==> u in keys)
  }

  /** The events one group contributes: its expansion, or nothing when it is
      not a valid series. */
  function Contribution(uid: string, events: seq<CalendarEvent>, start: int, end: int): seq<PrimitiveEvent> {
    match EventSetOf(uid, events)
    case Ok(s) => CreatePrimitives(s, start, end)
    case Err(_) => []
  }

  function Contributions(groups: map<string, seq<CalendarEvent>>, start: int, end: int)
    : map<string, seq<PrimitiveEvent>>
  {
    map u | u in groups :: Contribution(u, groups[u], start, end)
  }

  /** The `flat_map` over the map, taken in `order`; a key outside the map
      contributes nothing. */
  function Gather<T(!new)>(order: seq<string>, parts: map<string, seq<T>>): (r: seq<T>)
    ensures forall x :: x in r ==> exists u :: u in order && u in parts && x in parts[u]
  {
    if order == [] then []
    else
      var u := order[|order| - 1];
      assert order == order[..|order| - 1] + [u];
      Gather(order[..|order| - 1], parts) + if u in parts then parts[u] else []
  }

  /** Every event of every listed group is gathered. */
  lemma {:induction false} GatherCovers<T(!new)>(order: seq<string>, parts: map<string, seq<T>>, u: string, x: T)
    requires u in order && u in parts && x in parts[u]
    ensures x in Gather(order, parts)
  {
    var n := |order| - 1;
    assert order == order[..n] + [order[n]];
    if order[n] != u {
      GatherCovers(order[..n], parts, u, x);
    }
  }

  lemma {:induction false} GatherAppend<T(!new)>(a: seq<string>, b: seq<string>, parts: map<string, seq<T>>)
    ensures Gather(a + b, parts) == Gather(a, parts) + Gather(b, parts)
    decreases |b|
  {
    if b == [] {
      assert a + b == a;
    } else {
      var n := |b| - 1;
      assert (a + b)[..|a + b| - 1] == a + b[..n];
      GatherAppend(a, b[..n], parts);
    }
  }

  lemma HeadIsMember(o: seq<string>)
    ensures |o| > 0 ==> o[0] in o
  {
  }

  /** Removing one key from an enumeration enumerates the other keys. */
  lemma EnumeratesWithout(o: seq<string>, keys: set<string>, p: int)
    requires Enumerates(o, keys) && 0 <= p < |o|
    ensures Enumerates(o[..p] + o[p + 1..], keys - {o[p]})
  {
    var r := o[..p] + o[p + 1..];
    forall i | 0 <= i < |r| ensures r[i] == o[if i < p then i else i + 1] {
    }
    forall u ensures u in r <==> u in keys - {o[p]} {
      if u in keys - {o[p]} {
        var i :| 0 <= i < |o| && o[i] == u;
        assert r[if i < p then i else i - 1] == u;
      }
    }
  }

  /** Taking one key out of the order takes its part out of the output. */
  lemma GatherRemove<T(!new)>(o: seq<string>, p: int, parts: map<string, seq<T>>)
    requires 0 <= p < |o| && o[p] in parts
    ensures multiset(Gather(o, parts)) == multiset(Gather(o[..p] + o[p + 1..], parts)) + multiset(parts[o[p]])
  {
    var a := o[..p];
    var b := o[p + 1..];
    assert o == (a + [o[p]]) + b;
    GatherAppend(a + [o[p]], b, parts);
    assert (a + [o[p]])[..|a|] == a;
    assert Gather(a + [o[p]], parts) == Gather(a, parts) + parts[o[p]];
    GatherAppend(a, b, parts);
  }

  /** The map's iteration order only permutes the output: any two orders that
      list the same keys yield the same events, counted with multiplicity. */
  lemma {:induction false} GatherOrderIrrelevant<T(!new)>(o1: seq<string>, o2: seq<string>, keys: set<string>,
                                                    parts: map<string, seq<T>>)
    requires Enumerates(o1, keys) && Enumerates(o2, keys) && keys <= parts.Keys
    ensures multiset(Gather(o1, parts)) == multiset(Gather(o2, parts))
    decreases |o1|
  {
    if o1 == [] {
      HeadIsMember(o2);
    } else {
      var n := |o1| - 1;
      var x := o1[n];
      assert x in keys;
      var p :| 0 <= p < |o2| && o2[p] == x;
      EnumeratesWithout(o1, keys, n);
      EnumeratesWithout(o2, keys, p);
      assert o1[..n] + o1[n + 1..] == o1[..n];
      GatherOrderIrrelevant(o1[..n], o2[..p] + o2[p + 1..], keys - {x}, parts);
      GatherRemove(o1, n, parts);
      GatherRemove(o2, p, parts);
    }
  }

  /** Every zone block converts or fails without panicking, and every event
      only asks the resolver for zones the document provides. */
  ghost predicate DocumentResolvable(cal: IcalCalendar, fmt: Formats, engine: RuleEngine) {
    && (forall i :: 0 <= i < |cal.timezones| ==> ZoneParses(cal.timezones[i], fmt, engine))
    && (forall i :: 0 <= i < |cal.events| ==>
          Resolvable(cal.events[i], fmt, Resolver(ZoneMapOf(cal.timezones, fmt, engine))))
  }

  /** The surviving events of a document grouped by UID. */
  function GroupsOf(cal: IcalCalendar, fmt: Formats, engine: RuleEngine): map<string, seq<CalendarEvent>>
    requires DocumentResolvable(cal, fmt, engine)
  {
    GroupByUid(Oks(EventResults(cal.events, fmt, engine, Resolver(ZoneMapOf(cal.timezones, fmt, engine)))))
  }

  /** The first step of `create_events`: the zones that convert, by id. */
  method CollectZones(timezones: seq<IcalTimeZone>, fmt: Formats, engine: RuleEngine)
    returns (zones: map<string, Timezone>)
    requires forall i :: 0 <= i < |timezones| ==> ZoneParses(timezones[i], fmt, engine)
    ensures zones == ZoneMapOf(timezones, fmt, engine)
  {
    ghost var results := ZoneResults(timezones, fmt, engine);
    zones := map[];
    for i := 0 to |timezones|
      invariant zones == IndexById(results[..i])
    {
      assert results[..i + 1][..i] == results[..i];
      var tz := TryFrom(timezones[i], fmt, engine);
      if tz.Ok? {
        zones := zones[tz.value.id := tz.value];
      }
    }
    assert results[..|timezones|] == results;
  }

  /** Grouping one more conversion result. */
  lemma GroupStep(results: seq<Result<CalendarEvent>>, i: int)
    requires 0 <= i < |results|
    ensures var groups := GroupByUid(Oks(results[..i]));
            GroupByUid(Oks(results[..i + 1])) ==
              match results[i]
              case Ok(e) => groups[e.uid := (if e.uid in groups then groups[e.uid] else []) + [e]]
              case Err(_) => groups
  {
    assert results[..i + 1] == results[..i] + [results[i]];
    OksAppend(results[..i], [results[i]]);
    assert [results[i]][..0] == [];
    var before := Oks(results[..i]);
    if results[i].Ok? {
      var e := results[i].value;
      assert Oks([results[i]]) == [e];
      assert (before + [e])[..|before|] == before;
      assert GroupByUid(before + [e]) == GroupByUid(before)[e.uid := (if e.uid in GroupByUid(before) then GroupByUid(before)[e.uid] else []) + [e]];
    } else {
      assert Oks([results[i]]) == [];
      assert before + [] == before;
    }
  }

  /** The second step: the events that convert, grouped by UID. */
  method GroupEvents(events: seq<IcalEvent>, fmt: Formats, engine: RuleEngine, resolve: (string, int) --> int)
    returns (groups: map<string, seq<CalendarEvent>>)
    requires forall i :: 0 <= i < |events| ==> Resolvable(events[i], fmt, resolve)
    ensures groups == GroupByUid(Oks(EventResults(events, fmt, engine, resolve)))
  {
    ghost var results := EventResults(events, fmt, engine, resolve);
    groups := map[];
    for i := 0 to |events|
      invariant groups == GroupByUid(Oks(results[..i]))
    {
      GroupStep(results, i);
      var event := FromIcalEvent(events[i], fmt, engine, resolve);
      if event.Ok? {
        var uid := event.value.uid;
        var group := if uid in groups then groups[uid] else [];
        groups := groups[uid := group + [event.value]];
      }
    }
    assert results[..|events|] == results;
  }

  /** The third step: every valid series expanded, visiting the groups in an
      order of the map's choosing, returned as `order`. */
  method ExpandGroups(groups: map<string, seq<CalendarEvent>>, start: int, end: int)
    returns (out: seq<PrimitiveEvent>, ghost order: seq<string>)
    ensures Enumerates(order, groups.Keys)
    ensures out == Gather(order, Contributions(groups, start, end))
  {
    ghost var parts := Contributions(groups, start, end);
    var keys := groups.Keys;
    out := [];
    order := [];
    while keys != {}
      invariant keys <= groups.Keys
      invariant Enumerates(order, groups.Keys - keys)
      invariant out == Gather(order, parts)
      decreases keys
    {
      var uid :| uid in keys;
      var s := NewEventSet(uid, groups[uid]);
      if s.Ok? {
        out := out + CreatePrimitives(s.value, start, end);
      }
      assert (order + [uid])[..|order|] == order;
      keys := keys - {uid};
      order := order + [uid];
    }
  }

  /** The document has `out` as one possible result of `create_events`. */
  ghost predicate CreatesEvents(cal: IcalCalendar, start: int, end: int, fmt: Formats, engine: RuleEngine,
                                out: seq<PrimitiveEvent>)
    requires DocumentResolvable(cal, fmt, engine)
  {
    exists order :: && Enumerates(order, GroupsOf(cal, fmt, engine).Keys)
                    && out == Gather(order, Contributions(GroupsOf(cal, fmt, engine), start, end))
  }

  /** `create_events`. */
  method CreateEvents(cal: IcalCalendar, start: int, end: int, fmt: Formats, engine: RuleEngine)
    returns (out: seq<PrimitiveEvent>, ghost order: seq<string>)
    requires DocumentResolvable(cal, fmt, engine)
    ensures Enumerates(order, GroupsOf(cal, fmt, engine).Keys)
    ensures out == Gather(order, Contributions(GroupsOf(cal, fmt, engine), start, end))
    ensures CreatesEvents(cal, start, end, fmt, engine, out)
  {
    var zones := CollectZones(cal.timezones, fmt, engine);
    var groups := GroupEvents(cal.events, fmt, engine, Resolver(zones));
    out, order := ExpandGroups(groups, start, end);
  }

  lemma CreatesEventsExtend(docs: seq<IcalCalendar>, parts: seq<seq<PrimitiveEvent>>, events: seq<PrimitiveEvent>,
                            start: int, end: int, fmt: Formats, engine: RuleEngine)
    requires |parts| < |docs|
    requires forall i :: 0 <= i < |docs| ==> DocumentResolvable(docs[i], fmt, engine)
    requires forall j :: 0 <= j < |parts| ==> CreatesEvents(docs[j], start, end, fmt, engine, parts[j])
    requires CreatesEvents(docs[|parts|], start, end, fmt, engine, events)
    ensures forall j :: 0 <= j < |parts| + 1 ==> CreatesEvents(docs[j], start, end, fmt, engine, (parts + [events])[j])
  {
    forall j | 0 <= j < |parts| + 1
      ensures CreatesEvents(docs[j], start, end, fmt, engine, (parts + [events])[j])
    {
      if j < |parts| {
        assert (parts + [events])[j] == parts[j];
      }
    }
  }

  /** The loop of `fetch_calendar_events` over the documents of a download:
      the events of each document, appended in document order. */
  method CollectEvents(docs: seq<IcalCalendar>, start: int, end: int, fmt: Formats, engine: RuleEngine)
    returns (out: seq<PrimitiveEvent>, ghost parts: seq<seq<PrimitiveEvent>>)
    requires forall i :: 0 <= i < |docs| ==> DocumentResolvable(docs[i], fmt, engine)
    ensures |parts| == |docs|
    ensures forall i :: 0 <= i < |docs| ==> CreatesEvents(docs[i], start, end, fmt, engine, parts[i])
    ensures out == Concat(parts)
  {
    out := [];
    parts := [];
    for i := 0 to |docs|
      invariant |parts| == i
      invariant forall j :: 0 <= j < i ==> CreatesEvents(docs[j], start, end, fmt, engine, parts[j])
      invariant out == Concat(parts)
    {
      var events, order := CreateEvents(docs[i], start, end, fmt, engine);
      CreatesEventsExtend(docs, parts, events, start, end, fmt, engine);
      ConcatAppend(parts, [events]);
      out := out + events;
      parts := parts + [events];
    }
  }

  // ---------------------------------------------------------------------------
  // A feed

  /** The events of the calendars whose retrieval succeeded, in calendar
      order (`filter_map` and `flatten` over the `join_all` results). */
  function Successful(results: seq<Result<seq<PrimitiveEvent>>>): (r: seq<PrimitiveEvent>)
    ensures forall e :: e in r <==> exists v :: Ok(v) in results && e in v
  {
    OkPartsMembership(results);
    Concat(Oks(results))
  }

  lemma SuccessfulAppend(a: seq<Result<seq<PrimitiveEvent>>>, b: seq<Result<seq<PrimitiveEvent>>>)
    ensures Successful(a + b) == Successful(a) + Successful(b)
  {
    OksAppend(a, b);
    ConcatAppend(Oks(a), Oks(b));
  }

  /** A calendar that fails contributes nothing; the others keep their order. */
  lemma {:induction false} FailedCalendarContributesNothing(a: seq<Result<seq<PrimitiveEvent>>>, e: Error,
                                                           b: seq<Result<seq<PrimitiveEvent>>>)
    ensures Successful(a + [Err(e)] + b) == Successful(a) + Successful(b)
  {
    var failed: seq<Result<seq<PrimitiveEvent>>> := [Err(e)];
    SuccessfulAppend(a + failed, b);
    SuccessfulAppend(a, failed);
    assert failed[..0] == [];
  }

  /** Every event keeps its range and is renamed "Busy". */
  function Anonymize(events: seq<PrimitiveEvent>): (r: seq<PrimitiveEvent>)
    ensures |r| == |events|
    ensures forall i :: 0 <= i < |r| ==> r[i].range == events[i].range && r[i].summary == "Busy"
  {
    if events == [] then []
    else Anonymize(events[..|events| - 1]) + [PrimitiveEvent(events[|events| - 1].range, "Busy")]
  }

  /** The outcome of every calendar of a feed, in configured order. */
  function FetchAll(calendars: seq<CalendarConfig>, fetch: CalendarConfig -> Result<seq<PrimitiveEvent>>)
    : seq<Result<seq<PrimitiveEvent>>>
  {
    seq(|calendars|, i requires 0 <= i < |calendars| => fetch(calendars[i]))
  }

  /** `get_feed`, with the outcome of `fetch_calendar_events` for each
      calendar given by `fetch`. */
  function GetFeed(config: AppConfig, token: string, fetch: CalendarConfig -> Result<seq<PrimitiveEvent>>)
    : (r: Result<seq<PrimitiveEvent>>)
    ensures r.Err? <==> config.GetFeedByToken(token).None?
    ensures r.Err? ==> r.error == InvalidToken
    ensures r.Ok? ==>
              var feed := config.GetFeedByToken(token).value;
              var events := Successful(FetchAll(feed.calendars, fetch));
              && (token == feed.tokens.public ==> r.value == Anonymize(events))
              && (token != feed.tokens.public ==> r.value == events)
  {
    match config.GetFeedByToken(token)
    case None => Err(InvalidToken)
    case Some(feed) =>
      var isPublic := token == feed.tokens.public;
      var events := Successful(FetchAll(feed.calendars, fetch));
      Ok(if isPublic then Anonymize(events) else events)
  }

  /** The public token of a feed shows the same events as its private token,
      at the same times and in the same order, with every summary "Busy". */
  lemma PublicTokenHidesOnlySummaries(config: AppConfig, feed: FeedConfig,
                                      fetch: CalendarConfig -> Result<seq<PrimitiveEvent>>)
    requires config.GetFeedByToken(feed.tokens.private) == Some(feed)
    requires config.GetFeedByToken(feed.tokens.public) == Some(feed)
    requires feed.tokens.private != feed.tokens.public
    ensures GetFeed(config, feed.tokens.private, fetch).Ok? && GetFeed(config, feed.tokens.public, fetch).Ok?
    ensures var full := GetFeed(config, feed.tokens.private, fetch).value;
            var busy := GetFeed(config, feed.tokens.public, fetch).value;
            && |busy| == |full|
            && forall i :: 0 <= i < |busy| ==> busy[i].range == full[i].range && busy[i].summary == "Busy"
  {
  }
}
