/** Timezones built from VTIMEZONE blocks and the conversion of a local time to
    UTC (src/model/timezone/mod.rs). Local times are seconds of a naive clock,
    handled as if they were UTC instants, as the source does for the rrule
    crate; offsets are seconds east of UTC. */
module Timezones {
  import opened Common
  import opened Ical
  import Utils
  import Datetime

  /** One STANDARD or DAYLIGHT block: the local times at which it takes effect,
      as its rule set yields them, and the offsets before and after. */
  datatype Transition = Transition(occurrences: seq<int>, from: int, to: int)

  datatype Timezone = Timezone(id: string, transitions: seq<Transition>) {
    /** Some transition occurs at all; without one `local_to_utc` panics. */
    predicate HasOccurrence() {
      exists k :: 0 <= k < |transitions| && transitions[k].occurrences != []
    }
  }

  // ---------------------------------------------------------------------------
  // Choosing the offset

  /** `take_while(|d| d <= t).last()` over the occurrences. */
  function LastAtOrBefore(occ: seq<int>, t: int): (r: Option<int>)
    ensures r.None? <==> (occ == [] || occ[0] > t)
    ensures r.Some? ==> r.value in occ && r.value <= t
  {
    if occ == [] || occ[0] > t then None
    else match LastAtOrBefore(occ[1..], t)
      case None => Some(occ[0])
      case Some(x) => Some(x)
  }

  /** On a chronological occurrence list the take-while is the latest
      occurrence at or before `t`. */
  lemma {:induction false} LastAtOrBeforeIsLatest(occ: seq<int>, t: int)
    requires Ascending(occ)
    ensures LastAtOrBefore(occ, t).None? <==> forall i :: 0 <= i < |occ| ==> occ[i] > t
    ensures LastAtOrBefore(occ, t).Some? ==>
              forall i :: 0 <= i < |occ| && occ[i] <= t ==> occ[i] <= LastAtOrBefore(occ, t).value
    decreases |occ|
  {
    if occ != [] && occ[0] <= t {
      var rest := occ[1..];
      assert Ascending(rest) by {
        forall i, j | 0 <= i < j < |rest| ensures rest[i] <= rest[j] {
          assert rest[i] == occ[i + 1] && rest[j] == occ[j + 1];
        }
      }
      LastAtOrBeforeIsLatest(rest, t);
      forall i | 0 <= i < |occ| && occ[i] <= t
        ensures occ[i] <= LastAtOrBefore(occ, t).value
      {
        if i > 0 {
          assert occ[i] == rest[i - 1];
        }
      }
    }
  }

  /** The take-while returns the element just before the first one past `t`. */
  lemma {:induction false} LastAtOrBeforeStopsAt(occ: seq<int>, t: int, i: int)
    requires 0 <= i < |occ| && (i + 1 == |occ| || occ[i + 1] > t)
    requires forall m :: 0 <= m <= i ==> occ[m] <= t
    ensures LastAtOrBefore(occ, t) == Some(occ[i])
    decreases i
  {
    if i > 0 {
      var rest := occ[1..];
      assert forall m :: 0 <= m <= i - 1 ==> rest[m] == occ[m + 1];
      LastAtOrBeforeStopsAt(rest, t, i - 1);
    } else if |occ| > 1 {
      assert occ[1..][0] == occ[1];
    }
  }

  /** Transition `k` is the one the first loop of `local_to_utc` settles on:
      its latest occurrence at or before `t` is the greatest, earlier
      transitions are strictly behind it and later ones are not ahead of it. */
  predicate IsLatestChoice(trs: seq<Transition>, t: int, k: int) {
    && 0 <= k < |trs|
    && LastAtOrBefore(trs[k].occurrences, t).Some?
    && (forall j :: 0 <= j < k ==>
          LastAtOrBefore(trs[j].occurrences, t).None? ||
          LastAtOrBefore(trs[j].occurrences, t).value < LastAtOrBefore(trs[k].occurrences, t).value)
    && (forall j :: k < j < |trs| ==>
          LastAtOrBefore(trs[j].occurrences, t).None? ||
          LastAtOrBefore(trs[j].occurrences, t).value <= LastAtOrBefore(trs[k].occurrences, t).value)
  }

  /** The first loop of `local_to_utc` as a left fold: the latest occurrence
      seen so far and the `to` offset of its transition, replaced only by a
      strictly later one. */
  function ScanLatest(trs: seq<Transition>, t: int): (r: Option<(int, int)>)
    ensures r.None? <==> forall k :: 0 <= k < |trs| ==> LastAtOrBefore(trs[k].occurrences, t).None?
  {
    if trs == [] then None
    else
      var acc := ScanLatest(trs[..|trs| - 1], t);
      var tr := trs[|trs| - 1];
      match LastAtOrBefore(tr.occurrences, t)
      case None => acc
      case Some(last) => if acc.None? || last > acc.value.0 then Some((last, tr.to)) else acc
  }

  /** Every transition's latest occurrence is bounded by the latest choice's. */
  lemma LatestChoiceBounds(trs: seq<Transition>, t: int, k: int)
    requires IsLatestChoice(trs, t, k)
    ensures forall j :: 0 <= j < |trs| ==>
              LastAtOrBefore(trs[j].occurrences, t).None? ||
              LastAtOrBefore(trs[j].occurrences, t).value <= LastAtOrBefore(trs[k].occurrences, t).value
  {
  }

  /** A last transition that is not ahead keeps the choice of the others. */
  lemma LatestChoiceKept(trs: seq<Transition>, t: int, k: int)
    requires trs != [] && IsLatestChoice(trs[..|trs| - 1], t, k)
    requires LastAtOrBefore(trs[|trs| - 1].occurrences, t).None? ||
             LastAtOrBefore(trs[|trs| - 1].occurrences, t).value <= LastAtOrBefore(trs[k].occurrences, t).value
    ensures IsLatestChoice(trs, t, k)
  {
    var p := trs[..|trs| - 1];
    assert forall j :: 0 <= j < |p| ==> p[j] == trs[j];
  }

  /** The fold ends on a transition that is the latest choice, and yields its
      occurrence and its `to` offset. */
  lemma {:induction false} ScanLatestChoice(trs: seq<Transition>, t: int) returns (k: int)
    requires ScanLatest(trs, t).Some?
    ensures IsLatestChoice(trs, t, k)
    ensures ScanLatest(trs, t).value == (LastAtOrBefore(trs[k].occurrences, t).value, trs[k].to)
    decreases |trs|
  {
    var n := |trs| - 1;
    var p := trs[..n];
    assert forall j :: 0 <= j < n ==> p[j] == trs[j];
    var acc := ScanLatest(p, t);
    var l := LastAtOrBefore(trs[n].occurrences, t);
    if acc.None? {
      k := n;
    } else {
      var k0 := ScanLatestChoice(p, t);
      if l.Some? && l.value > acc.value.0 {
        LatestChoiceBounds(p, t, k0);
        k := n;
      } else {
        LatestChoiceKept(trs, t, k0);
        k := k0;
      }
    }
  }

  /** Transition `k` is the one the fallback loop settles on: its first
      occurrence is the earliest, earlier transitions start strictly later and
      later ones do not start earlier. */
  predicate IsEarliestChoice(trs: seq<Transition>, k: int) {
    && 0 <= k < |trs|
    && trs[k].occurrences != []
    && (forall j :: 0 <= j < k ==>
          trs[j].occurrences == [] || trs[j].occurrences[0] > trs[k].occurrences[0])
    && (forall j :: k < j < |trs| ==>
          trs[j].occurrences == [] || trs[j].occurrences[0] >= trs[k].occurrences[0])
  }

  /** The fallback loop as a left fold: the earliest first occurrence seen so
      far and the `from` offset of its transition, replaced only by a strictly
      earlier one. */
  function ScanEarliest(trs: seq<Transition>): (r: Option<(int, int)>)
    ensures r.None? <==> forall k :: 0 <= k < |trs| ==> trs[k].occurrences == []
  {
    if trs == [] then None
    else
      var acc := ScanEarliest(trs[..|trs| - 1]);
      var tr := trs[|trs| - 1];
      if tr.occurrences == [] then acc
      else if acc.None? || tr.occurrences[0] < acc.value.0 then Some((tr.occurrences[0], tr.from))
      else acc
  }

  lemma EarliestChoiceBounds(trs: seq<Transition>, k: int)
    requires IsEarliestChoice(trs, k)
    ensures forall j :: 0 <= j < |trs| ==> trs[j].occurrences == [] || trs[j].occurrences[0] >= trs[k].occurrences[0]
  {
  }

  lemma EarliestChoiceKept(trs: seq<Transition>, k: int)
    requires trs != [] && IsEarliestChoice(trs[..|trs| - 1], k)
    requires trs[|trs| - 1].occurrences == [] || trs[|trs| - 1].occurrences[0] >= trs[k].occurrences[0]
    ensures IsEarliestChoice(trs, k)
  {
    var p := trs[..|trs| - 1];
    assert forall j :: 0 <= j < |p| ==> p[j] == trs[j];
  }

  /** The fallback fold ends on the earliest choice and yields its first
      occurrence and its `from` offset. */
  lemma {:induction false} ScanEarliestChoice(trs: seq<Transition>) returns (k: int)
    requires ScanEarliest(trs).Some?
    ensures IsEarliestChoice(trs, k)
    ensures ScanEarliest(trs).value == (trs[k].occurrences[0], trs[k].from)
    decreases |trs|
  {
    var n := |trs| - 1;
    var p := trs[..n];
    assert forall j :: 0 <= j < n ==> p[j] == trs[j];
    var acc := ScanEarliest(p);
    var occ := trs[n].occurrences;
    if acc.None? {
      k := n;
    } else {
      var k0 := ScanEarliestChoice(p);
      if occ != [] && occ[0] < acc.value.0 {
        EarliestChoiceBounds(p, k0);
        k := n;
      } else {
        EarliestChoiceKept(trs, k0);
        k := k0;
      }
    }
  }

  /** Each scan's result is fixed by its choice, whichever index names it. */
  lemma ScanChoices(trs: seq<Transition>, t: int)
    ensures forall k :: IsLatestChoice(trs, t, k) ==>
              ScanLatest(trs, t) == Some((LastAtOrBefore(trs[k].occurrences, t).value, trs[k].to))
    ensures forall k :: IsEarliestChoice(trs, k) ==>
              ScanEarliest(trs) == Some((trs[k].occurrences[0], trs[k].from))
  {
    forall k | IsLatestChoice(trs, t, k)
      ensures ScanLatest(trs, t) == Some((LastAtOrBefore(trs[k].occurrences, t).value, trs[k].to))
    {
      var k' := ScanLatestChoice(trs, t);
      assert k' == k;
    }
    forall k | IsEarliestChoice(trs, k)
      ensures ScanEarliest(trs) == Some((trs[k].occurrences[0], trs[k].from))
    {
      var k' := ScanEarliestChoice(trs);
      assert k' == k;
    }
  }

  /** The offset the two scans settle on. */
  function ScannedOffset(tz: Timezone, t: int): int
    requires tz.HasOccurrence()
  {
    match ScanLatest(tz.transitions, t)
    case Some(latest) => latest.1
    case None => ScanEarliest(tz.transitions).value.1
  }

  /** The UTC instant of local time `t`: the `to` offset of the latest
      transition at or before `t`, or, when `t` predates them all, the `from`
      offset of the transition that starts first, taken off `t`. */
  function ToUtc(tz: Timezone, t: int): (utc: int)
    requires tz.HasOccurrence()
    ensures forall k :: IsLatestChoice(tz.transitions, t, k) ==> utc == t - tz.transitions[k].to
    ensures (forall j :: 0 <= j < |tz.transitions| ==> LastAtOrBefore(tz.transitions[j].occurrences, t).None?) ==>
              forall k :: IsEarliestChoice(tz.transitions, k) ==> utc == t - tz.transitions[k].from
  {
    ScanChoices(tz.transitions, t);
    t - ScannedOffset(tz, t)
  }

  /** When some transition has occurred by `t`, the result is `t` minus the
      `to` offset of the latest choice. */
  lemma ToUtcAfterTransition(tz: Timezone, t: int, k: int)
    requires IsLatestChoice(tz.transitions, t, k)
    ensures tz.HasOccurrence()
    ensures ToUtc(tz, t) == t - tz.transitions[k].to
  {
    var trs := tz.transitions;
    assert trs[k].occurrences != [];
    var k' := ScanLatestChoice(trs, t);
    assert k' == k;
  }

  /** When `t` predates every transition, the result is `t` minus the `from`
      offset of the earliest choice. */
  lemma ToUtcBeforeHistory(tz: Timezone, t: int, k: int)
    requires forall j :: 0 <= j < |tz.transitions| ==> LastAtOrBefore(tz.transitions[j].occurrences, t).None?
    requires IsEarliestChoice(tz.transitions, k)
    ensures tz.HasOccurrence()
    ensures ToUtc(tz, t) == t - tz.transitions[k].from
  {
    var trs := tz.transitions;
    var k' := ScanEarliestChoice(trs);
    assert k' == k;
  }

  /** The two cases cover every time of a zone that has an occurrence: one
      transition is the latest choice once any has occurred, and one is the
      earliest choice. */
  lemma ChoiceExists(tz: Timezone, t: int)
    requires tz.HasOccurrence()
    ensures (exists j :: 0 <= j < |tz.transitions| && LastAtOrBefore(tz.transitions[j].occurrences, t).Some?)
            ==> exists k :: IsLatestChoice(tz.transitions, t, k)
    ensures exists k :: IsEarliestChoice(tz.transitions, k)
  {
    if ScanLatest(tz.transitions, t).Some? {
      var k := ScanLatestChoice(tz.transitions, t);
    }
    var k := ScanEarliestChoice(tz.transitions);
  }

  /** `Timezone::local_to_utc`: two scans over the transitions. */
  method LocalToUtc(tz: Timezone, t: int) returns (utc: int)
    requires tz.HasOccurrence()
    ensures utc == ToUtc(tz, t)
  {
    var trs := tz.transitions;
    var lastTime: Option<int> := None;
    var lastOffset: Option<int> := None;
    for i := 0 to |trs|
      invariant match ScanLatest(trs[..i], t)
                case None => lastTime.None? && lastOffset.None?
                case Some(p) => lastTime == Some(p.0) && lastOffset == Some(p.1)
    {
      assert trs[..i + 1][..i] == trs[..i];
      var transition := trs[i];
      var last := LastAtOrBefore(transition.occurrences, t);
      if last.Some? {
        if lastTime.Some? {
          if last.value > lastTime.value {
            lastTime := last;
            lastOffset := Some(transition.to);
          }
        } else {
          lastTime := last;
          lastOffset := Some(transition.to);
        }
      }
    }
    assert trs[..|trs|] == trs;

    var offset: int;
    if lastOffset.Some? {
      offset := lastOffset.value;
    } else {
      var firstTime: Option<int> := None;
      var firstOffset: Option<int> := None;
      for i := 0 to |trs|
        invariant match ScanEarliest(trs[..i])
                  case None => firstTime.None? && firstOffset.None?
                  case Some(p) => firstTime == Some(p.0) && firstOffset == Some(p.1)
      {
        assert trs[..i + 1][..i] == trs[..i];
        var transition := trs[i];
        if transition.occurrences != [] {
          var first := transition.occurrences[0];
          if firstTime.Some? {
            if first < firstTime.value {
              firstTime := Some(first);
              firstOffset := Some(transition.from);
            }
          } else {
            firstTime := Some(first);
            firstOffset := Some(transition.from);
          }
        }
      }
      offset := firstOffset.value;
    }
    utc := t - offset;
    assert utc == t - ScannedOffset(tz, t);
  }

  // ---------------------------------------------------------------------------
  // Building a timezone from its VTIMEZONE block

  /** Insert into a chronological list. */
  function Insert(x: int, s: seq<int>): (r: seq<int>)
    requires Ascending(s)
    ensures Ascending(r)
    ensures multiset(r) == multiset(s) + multiset{x}
    ensures |r| > 0 && r[0] == (if s == [] || x <= s[0] then x else s[0])
  {
    if s == [] || x <= s[0] then [x] + s
    else
      var tail := s[1..];
      assert s == [s[0]] + tail;
      var rest := Insert(x, tail);
      assert rest[0] == x || rest[0] == tail[0];
      [s[0]] + rest
  }

  /** The explicit dates of a rule set in the chronological order in which the
      rrule crate yields them. */
  function SortedTimes(s: seq<int>): (r: seq<int>)
    ensures Ascending(r)
    ensures multiset(r) == multiset(s)
  {
    if s == [] then []
    else
      assert s == [s[0]] + s[1..];
      Insert(s[0], SortedTimes(s[1..]))
  }

  /** `parse_transition` unwraps these: a value on every property it reads, a
      rule the rrule crate accepts, a date-time it can parse. */
  predicate PropertyParses(p: Property, fmt: Formats, engine: RuleEngine) {
    && (p.name in {"TZOFFSETFROM", "TZOFFSETTO", "RRULE", "DTSTART", "RDATE"} ==> p.value.Some?)
    && (p.name == "RRULE" ==> engine.parses(p.value.value))
    && (p.name in {"DTSTART", "RDATE"} ==> fmt.dateTime(p.value.value).Some?)
  }

  predicate AllParse(props: seq<Property>, fmt: Formats, engine: RuleEngine) {
    forall i :: 0 <= i < |props| ==> PropertyParses(props[i], fmt, engine)
  }

  lemma AllParsePrefix(props: seq<Property>, n: nat, fmt: Formats, engine: RuleEngine)
    requires AllParse(props, fmt, engine) && n <= |props|
    ensures AllParse(props[..n], fmt, engine)
  {
    assert forall i :: 0 <= i < n ==> props[..n][i] == props[i];
  }

  /** The offset a TZOFFSETFROM or TZOFFSETTO line leaves behind: each such
      line overwrites the last, a line that does not parse with nothing. */
  function ParsedOffset(props: seq<Property>, name: string, fmt: Formats, engine: RuleEngine): Option<int>
    requires name == "TZOFFSETFROM" || name == "TZOFFSETTO"
    requires AllParse(props, fmt, engine)
  {
    match Lookup(props, name)
    case None => None
    case Some(p) => fmt.offset(p.value.value)
  }

  /** The local time of the last DTSTART line. */
  function ParsedStart(props: seq<Property>, fmt: Formats, engine: RuleEngine): Option<int>
    requires AllParse(props, fmt, engine)
  {
    match Lookup(props, "DTSTART")
    case None => None
    case Some(p) => fmt.dateTime(p.value.value)
  }

  /** The text of the last RRULE line. */
  function RuleText(props: seq<Property>, fmt: Formats, engine: RuleEngine): Option<string>
    requires AllParse(props, fmt, engine)
  {
    match Lookup(props, "RRULE")
    case None => None
    case Some(p) => p.value
  }

  /** The `occurences` list: every DTSTART and RDATE local time, in property order. */
  function ExplicitOccurrences(props: seq<Property>, fmt: Formats, engine: RuleEngine): (r: seq<int>)
    requires AllParse(props, fmt, engine)
  {
    if props == [] then []
    else
      var p := props[|props| - 1];
      AllParsePrefix(props, |props| - 1, fmt, engine);
      ExplicitOccurrences(props[..|props| - 1], fmt, engine) +
      (if p.name == "DTSTART" || p.name == "RDATE" then [fmt.dateTime(p.value.value).value] else [])
  }

  /** A block whose properties are its DTSTART followed by RDATEs lists those
      times in that order, whatever other lines stand between them. */
  lemma {:induction false} ExplicitOccurrencesAppend(props: seq<Property>, more: seq<Property>, fmt: Formats, engine: RuleEngine)
    requires AllParse(props + more, fmt, engine)
    ensures AllParse(props, fmt, engine) && AllParse(more, fmt, engine)
    ensures ExplicitOccurrences(props + more, fmt, engine)
            == ExplicitOccurrences(props, fmt, engine) + ExplicitOccurrences(more, fmt, engine)
    decreases |more|
  {
    assert forall i :: 0 <= i < |props| ==> (props + more)[i] == props[i];
    assert forall i :: 0 <= i < |more| ==> (props + more)[|props| + i] == more[i];
    if more != [] {
      var n := |more| - 1;
      assert (props + more)[..|props + more| - 1] == props + more[..n];
      AllParsePrefix(more, n, fmt, engine);
      ExplicitOccurrencesAppend(props, more[..n], fmt, engine);
    } else {
      assert props + more == props;
    }
  }

  /** Everything `parse_transition` needs in order not to panic. */
  predicate TransitionParses(block: IcalTransition, fmt: Formats, engine: RuleEngine) {
    var props := block.properties;
    && AllParse(props, fmt, engine)
    && ParsedOffset(props, "TZOFFSETFROM", fmt, engine).Some?
    && ParsedOffset(props, "TZOFFSETTO", fmt, engine).Some?
    && ParsedStart(props, fmt, engine).Some?
    && (RuleText(props, fmt, engine).Some? ==>
          engine.validate(RuleText(props, fmt, engine).value, ParsedStart(props, fmt, engine).value).Some?)
  }

  /** The transition a block describes: its occurrences are those of its RRULE
      validated against its DTSTART, or else its explicit dates in order. */
  function TransitionOf(block: IcalTransition, fmt: Formats, engine: RuleEngine): (tr: Transition)
    requires TransitionParses(block, fmt, engine)
    ensures tr.from == ParsedOffset(block.properties, "TZOFFSETFROM", fmt, engine).value
    ensures tr.to == ParsedOffset(block.properties, "TZOFFSETTO", fmt, engine).value
    ensures RuleText(block.properties, fmt, engine).None? ==>
              multiset(tr.occurrences) == multiset(ExplicitOccurrences(block.properties, fmt, engine))
    ensures RuleText(block.properties, fmt, engine).None? ==> Ascending(tr.occurrences)
    ensures RuleText(block.properties, fmt, engine).Some? ==>
              tr.occurrences == engine.validate(RuleText(block.properties, fmt, engine).value,
                                                ParsedStart(block.properties, fmt, engine).value).value
  {
    var props := block.properties;
    var start := ParsedStart(props, fmt, engine).value;
    var occurrences :=
      match RuleText(props, fmt, engine)
      case Some(text) => engine.validate(text, start).value
      case None => SortedTimes(ExplicitOccurrences(props, fmt, engine));
    Transition(occurrences, ParsedOffset(props, "TZOFFSETFROM", fmt, engine).value,
               ParsedOffset(props, "TZOFFSETTO", fmt, engine).value)
  }

  /** What taking one more property does to the values `parse_transition` reads. */
  lemma ParsedStep(props: seq<Property>, i: int, fmt: Formats, engine: RuleEngine)
    requires AllParse(props, fmt, engine) && 0 <= i < |props|
    ensures AllParse(props[..i], fmt, engine) && AllParse(props[..i + 1], fmt, engine)
    ensures PropertyParses(props[i], fmt, engine)
    ensures ParsedOffset(props[..i + 1], "TZOFFSETFROM", fmt, engine)
            == if props[i].name == "TZOFFSETFROM" then fmt.offset(props[i].value.value)
               else ParsedOffset(props[..i], "TZOFFSETFROM", fmt, engine)
    ensures ParsedOffset(props[..i + 1], "TZOFFSETTO", fmt, engine)
            == if props[i].name == "TZOFFSETTO" then fmt.offset(props[i].value.value)
               else ParsedOffset(props[..i], "TZOFFSETTO", fmt, engine)
    ensures ParsedStart(props[..i + 1], fmt, engine)
            == if props[i].name == "DTSTART" then fmt.dateTime(props[i].value.value)
               else ParsedStart(props[..i], fmt, engine)
    ensures RuleText(props[..i + 1], fmt, engine)
            == if props[i].name == "RRULE" then props[i].value else RuleText(props[..i], fmt, engine)
    ensures ExplicitOccurrences(props[..i + 1], fmt, engine)
            == ExplicitOccurrences(props[..i], fmt, engine) +
               if props[i].name == "DTSTART" || props[i].name == "RDATE"
               then [fmt.dateTime(props[i].value.value).value] else []
  {
    AllParsePrefix(props, i, fmt, engine);
    AllParsePrefix(props, i + 1, fmt, engine);
    assert props[..i + 1][..i] == props[..i];
  }

  /** `parse_transition`: one pass over the properties of a block. */
  method ParseTransition(block: IcalTransition, fmt: Formats, engine: RuleEngine) returns (tr: Transition)
    requires TransitionParses(block, fmt, engine)
    ensures tr == TransitionOf(block, fmt, engine)
  {
    var props := block.properties;
    var from: Option<int> := None;
    var to: Option<int> := None;
    var dtstart: Option<int> := None;
    var occurrences: seq<int> := [];
    var rrule: Option<string> := None;
    for i := 0 to |props|
      invariant AllParse(props[..i], fmt, engine)
      invariant from == ParsedOffset(props[..i], "TZOFFSETFROM", fmt, engine)
      invariant to == ParsedOffset(props[..i], "TZOFFSETTO", fmt, engine)
      invariant dtstart == ParsedStart(props[..i], fmt, engine)
      invariant rrule == RuleText(props[..i], fmt, engine)
      invariant occurrences == ExplicitOccurrences(props[..i], fmt, engine)
    {
      ParsedStep(props, i, fmt, engine);
      var p := props[i];
      if p.name == "TZOFFSETFROM" {
        from := fmt.offset(p.value.value);
      } else if p.name == "TZOFFSETTO" {
        to := fmt.offset(p.value.value);
      } else if p.name == "RRULE" {
        rrule := Some(p.value.value);
      } else if p.name == "DTSTART" {
        var occurrence := fmt.dateTime(p.value.value).value;
        dtstart := Some(occurrence);
        occurrences := occurrences + [occurrence];
      } else if p.name == "RDATE" {
        var occurrence := fmt.dateTime(p.value.value).value;
        occurrences := occurrences + [occurrence];
      }
    }
    assert props[..|props|] == props;
    var rule: seq<int>;
    if rrule.Some? {
      rule := engine.validate(rrule.value, dtstart.value).value;
    } else {
      rule := SortedTimes(occurrences);
    }
    tr := Transition(rule, from.value, to.value);
  }

  /** The zone id: the value of the first TZID property, unescaped. */
  function TzidOf(zone: IcalTimeZone): (id: Option<string>)
    ensures id.Some? ==> exists i :: && 0 <= i < |zone.properties|
                                     && zone.properties[i].name == "TZID"
                                     && zone.properties[i].value.Some?
                                     && id.value == Utils.Unescape(zone.properties[i].value.value)
                                     && forall j :: 0 <= j < i ==> zone.properties[j].name != "TZID"
    ensures id.None? ==> forall i :: 0 <= i < |zone.properties| && zone.properties[i].name == "TZID"
                                     && zone.properties[i].value.Some?
                                     ==> exists j :: 0 <= j < i && zone.properties[j].name == "TZID"
  {
    match FindFirst(zone.properties, "TZID")
    case None => None
    case Some(p) =>
      match p.value
      case None => None
      case Some(v) => Some(Utils.Unescape(v))
  }

  /** Everything `try_from` needs in order not to panic: once it has an id,
      every block must parse. */
  predicate ZoneParses(zone: IcalTimeZone, fmt: Formats, engine: RuleEngine) {
    TzidOf(zone).Some? ==>
      forall i :: 0 <= i < |zone.transitions| ==> TransitionParses(zone.transitions[i], fmt, engine)
  }

  /** The timezone a VTIMEZONE block describes: its id and one transition per
      block, in order; an error when it has no id. */
  function TimezoneOf(zone: IcalTimeZone, fmt: Formats, engine: RuleEngine): (r: Result<Timezone>)
    requires ZoneParses(zone, fmt, engine)
    ensures r.Err? <==> TzidOf(zone).None?
    ensures r.Err? ==> r.error == MissingTimezoneId
    ensures r.Ok? ==> r.value.id == TzidOf(zone).value && |r.value.transitions| == |zone.transitions|
    ensures r.Ok? ==> forall i :: 0 <= i < |zone.transitions| ==>
                        r.value.transitions[i] == TransitionOf(zone.transitions[i], fmt, engine)
  {
    match TzidOf(zone)
    case None => Err(MissingTimezoneId)
    case Some(id) =>
      Ok(Timezone(id, seq(|zone.transitions|, i requires 0 <= i < |zone.transitions| =>
                                                TransitionOf(zone.transitions[i], fmt, engine))))
  }

  /** `Timezone::try_from`. */
  method TryFrom(zone: IcalTimeZone, fmt: Formats, engine: RuleEngine) returns (r: Result<Timezone>)
    requires ZoneParses(zone, fmt, engine)
    ensures r == TimezoneOf(zone, fmt, engine)
  {
    var id := TzidOf(zone);
    if id.None? {
      return Err(MissingTimezoneId);
    }
    var transitions: seq<Transition> := [];
    for i := 0 to |zone.transitions|
      invariant |transitions| == i
      invariant forall j :: 0 <= j < i ==> transitions[j] == TransitionOf(zone.transitions[j], fmt, engine)
    {
      var tr := ParseTransition(zone.transitions[i], fmt, engine);
      transitions := transitions + [tr];
    }
    r := Ok(Timezone(id.value, transitions));
    assert r.value.transitions == TimezoneOf(zone, fmt, engine).value.transitions;
  }

  // ---------------------------------------------------------------------------
  // Two historical zones

  /** America/New_York around the dates of interest, as local times: EST
      (UTC-5) from the last Sundays of October 1967 and 1980, 2000-10-29,
      2009-11-01 and 2010-11-07, EDT (UTC-4) from 1967-04-30, 1980-04-27,
      2000-04-02 and 2010-03-14, each at 02:00. */
  function NewYork(): Timezone {
    var edt := -4 * 3600;
    var est := -5 * 3600;
    Timezone("America/New_York", [
      Transition([-68680800, 341373600, 972784800, 1257040800, 1289095200], edt, est),
      Transition([-84405600, 325648800, 954640800, 1268532000], est, edt)
    ])
  }


  /** The occurrences of transition 0 of the NewYork table are the civil times named above. */
  lemma NewYorkDates0()
    ensures NewYork().transitions[0].occurrences[0] == Datetime.Timestamp(1967, 10, 29, 2, 0, 0)
    ensures NewYork().transitions[0].occurrences[1] == Datetime.Timestamp(1980, 10, 26, 2, 0, 0)
    ensures NewYork().transitions[0].occurrences[2] == Datetime.Timestamp(2000, 10, 29, 2, 0, 0)
    ensures NewYork().transitions[0].occurrences[3] == Datetime.Timestamp(2009, 11, 1, 2, 0, 0)
    ensures NewYork().transitions[0].occurrences[4] == Datetime.Timestamp(2010, 11, 7, 2, 0, 0)
  {
  }

  /** The occurrences of transition 1 of the NewYork table are the civil times named above. */
  lemma NewYorkDates1()
    ensures NewYork().transitions[1].occurrences[0] == Datetime.Timestamp(1967, 4, 30, 2, 0, 0)
    ensures NewYork().transitions[1].occurrences[1] == Datetime.Timestamp(1980, 4, 27, 2, 0, 0)
    ensures NewYork().transitions[1].occurrences[2] == Datetime.Timestamp(2000, 4, 2, 2, 0, 0)
    ensures NewYork().transitions[1].occurrences[3] == Datetime.Timestamp(2010, 3, 14, 2, 0, 0)
  {
  }

  lemma NewYork19670415()
    ensures NewYork().HasOccurrence()
    ensures ToUtc(NewYork(), Datetime.Timestamp(1967, 4, 15, 0, 0, 0)) == Datetime.Timestamp(1967, 4, 15, 5, 0, 0)
  {
    assert Datetime.Timestamp(1967, 4, 15, 0, 0, 0) == -85708800 && Datetime.Timestamp(1967, 4, 15, 5, 0, 0) == -85690800;
    var trs := NewYork().transitions;
    assert trs[0].occurrences != [];
    assert LastAtOrBefore(trs[0].occurrences, -85708800).None?;
    assert LastAtOrBefore(trs[1].occurrences, -85708800).None?;
    ToUtcBeforeHistory(NewYork(), -85708800, 1);
  }

  lemma NewYork19670515()
    ensures NewYork().HasOccurrence()
    ensures ToUtc(NewYork(), Datetime.Timestamp(1967, 5, 15, 0, 0, 0)) == Datetime.Timestamp(1967, 5, 15, 4, 0, 0)
  {
    assert Datetime.Timestamp(1967, 5, 15, 0, 0, 0) == -83116800 && Datetime.Timestamp(1967, 5, 15, 4, 0, 0) == -83102400;
    var trs := NewYork().transitions;
    assert trs[0].occurrences != [];
    assert LastAtOrBefore(trs[0].occurrences, -83116800).None?;
    LastAtOrBeforeStopsAt(trs[1].occurrences, -83116800, 0);
    ToUtcAfterTransition(NewYork(), -83116800, 1);
  }

  lemma NewYork19800426()
    ensures NewYork().HasOccurrence()
    ensures ToUtc(NewYork(), Datetime.Timestamp(1980, 4, 26, 0, 0, 0)) == Datetime.Timestamp(1980, 4, 26, 5, 0, 0)
  {
    assert Datetime.Timestamp(1980, 4, 26, 0, 0, 0) == 325555200 && Datetime.Timestamp(1980, 4, 26, 5, 0, 0) == 325573200;
    var trs := NewYork().transitions;
    assert trs[0].occurrences != [];
    LastAtOrBeforeStopsAt(trs[0].occurrences, 325555200, 0);
    LastAtOrBeforeStopsAt(trs[1].occurrences, 325555200, 0);
    ToUtcAfterTransition(NewYork(), 325555200, 0);
  }

  lemma NewYork19800428()
    ensures NewYork().HasOccurrence()
    ensures ToUtc(NewYork(), Datetime.Timestamp(1980, 4, 28, 0, 0, 0)) == Datetime.Timestamp(1980, 4, 28, 4, 0, 0)
  {
    assert Datetime.Timestamp(1980, 4, 28, 0, 0, 0) == 325728000 && Datetime.Timestamp(1980, 4, 28, 4, 0, 0) == 325742400;
    var trs := NewYork().transitions;
    assert trs[0].occurrences != [];
    LastAtOrBeforeStopsAt(trs[0].occurrences, 325728000, 0);
    LastAtOrBeforeStopsAt(trs[1].occurrences, 325728000, 1);
    ToUtcAfterTransition(NewYork(), 325728000, 1);
  }

  lemma NewYork19801025()
    ensures NewYork().HasOccurrence()
    ensures ToUtc(NewYork(), Datetime.Timestamp(1980, 10, 25, 0, 0, 0)) == Datetime.Timestamp(1980, 10, 25, 4, 0, 0)
  {
    assert Datetime.Timestamp(1980, 10, 25, 0, 0, 0) == 341280000 && Datetime.Timestamp(1980, 10, 25, 4, 0, 0) == 341294400;
    var trs := NewYork().transitions;
    assert trs[0].occurrences != [];
    LastAtOrBeforeStopsAt(trs[0].occurrences, 341280000, 0);
    LastAtOrBeforeStopsAt(trs[1].occurrences, 341280000, 1);
    ToUtcAfterTransition(NewYork(), 341280000, 1);
  }

  lemma NewYork19801027()
    ensures NewYork().HasOccurrence()
    ensures ToUtc(NewYork(), Datetime.Timestamp(1980, 10, 27, 0, 0, 0)) == Datetime.Timestamp(1980, 10, 27, 5, 0, 0)
  {
    assert Datetime.Timestamp(1980, 10, 27, 0, 0, 0) == 341452800 && Datetime.Timestamp(1980, 10, 27, 5, 0, 0) == 341470800;
    var trs := NewYork().transitions;
    assert trs[0].occurrences != [];
    LastAtOrBeforeStopsAt(trs[0].occurrences, 341452800, 1);
    LastAtOrBeforeStopsAt(trs[1].occurrences, 341452800, 1);
    ToUtcAfterTransition(NewYork(), 341452800, 0);
  }

  lemma NewYork20001220()
    ensures NewYork().HasOccurrence()
    ensures ToUtc(NewYork(), Datetime.Timestamp(2000, 12, 20, 0, 0, 0)) == Datetime.Timestamp(2000, 12, 20, 5, 0, 0)
  {
    assert Datetime.Timestamp(2000, 12, 20, 0, 0, 0) == 977270400 && Datetime.Timestamp(2000, 12, 20, 5, 0, 0) == 977288400;
    var trs := NewYork().transitions;
    assert trs[0].occurrences != [];
    LastAtOrBeforeStopsAt(trs[0].occurrences, 977270400, 2);
    LastAtOrBeforeStopsAt(trs[1].occurrences, 977270400, 2);
    ToUtcAfterTransition(NewYork(), 977270400, 0);
  }

  lemma NewYork20100313()
    ensures NewYork().HasOccurrence()
    ensures ToUtc(NewYork(), Datetime.Timestamp(2010, 3, 13, 0, 0, 0)) == Datetime.Timestamp(2010, 3, 13, 5, 0, 0)
  {
    assert Datetime.Timestamp(2010, 3, 13, 0, 0, 0) == 1268438400 && Datetime.Timestamp(2010, 3, 13, 5, 0, 0) == 1268456400;
    var trs := NewYork().transitions;
    assert trs[0].occurrences != [];
    LastAtOrBeforeStopsAt(trs[0].occurrences, 1268438400, 3);
    LastAtOrBeforeStopsAt(trs[1].occurrences, 1268438400, 2);
    ToUtcAfterTransition(NewYork(), 1268438400, 0);
  }

  lemma NewYork20100315()
    ensures NewYork().HasOccurrence()
    ensures ToUtc(NewYork(), Datetime.Timestamp(2010, 3, 15, 0, 0, 0)) == Datetime.Timestamp(2010, 3, 15, 4, 0, 0)
  {
    assert Datetime.Timestamp(2010, 3, 15, 0, 0, 0) == 1268611200 && Datetime.Timestamp(2010, 3, 15, 4, 0, 0) == 1268625600;
    var trs := NewYork().transitions;
    assert trs[0].occurrences != [];
    LastAtOrBeforeStopsAt(trs[0].occurrences, 1268611200, 3);
    LastAtOrBeforeStopsAt(trs[1].occurrences, 1268611200, 3);
    ToUtcAfterTransition(NewYork(), 1268611200, 1);
  }

  lemma NewYork20101106()
    ensures NewYork().HasOccurrence()
    ensures ToUtc(NewYork(), Datetime.Timestamp(2010, 11, 6, 0, 0, 0)) == Datetime.Timestamp(2010, 11, 6, 4, 0, 0)
  {
    assert Datetime.Timestamp(2010, 11, 6, 0, 0, 0) == 1289001600 && Datetime.Timestamp(2010, 11, 6, 4, 0, 0) == 1289016000;
    var trs := NewYork().transitions;
    assert trs[0].occurrences != [];
    LastAtOrBeforeStopsAt(trs[0].occurrences, 1289001600, 3);
    LastAtOrBeforeStopsAt(trs[1].occurrences, 1289001600, 3);
    ToUtcAfterTransition(NewYork(), 1289001600, 1);
  }

  lemma NewYork20101108()
    ensures NewYork().HasOccurrence()
    ensures ToUtc(NewYork(), Datetime.Timestamp(2010, 11, 8, 0, 0, 0)) == Datetime.Timestamp(2010, 11, 8, 5, 0, 0)
  {
    assert Datetime.Timestamp(2010, 11, 8, 0, 0, 0) == 1289174400 && Datetime.Timestamp(2010, 11, 8, 5, 0, 0) == 1289192400;
    var trs := NewYork().transitions;
    assert trs[0].occurrences != [];
    LastAtOrBeforeStopsAt(trs[0].occurrences, 1289174400, 4);
    LastAtOrBeforeStopsAt(trs[1].occurrences, 1289174400, 3);
    ToUtcAfterTransition(NewYork(), 1289174400, 0);
  }

  /** Europe/Moscow around 2010-2015, as local times: UTC+3 from 2010-10-31
      03:00 and 2014-10-26 02:00, UTC+4 from 2010-03-28 02:00 and 2011-03-27
      02:00. */
  function Moscow(): Timezone {
    var msd := 4 * 3600;
    var msk := 3 * 3600;
    Timezone("Europe/Moscow", [
      Transition([1288494000, 1414288800], msd, msk),
      Transition([1269741600, 1301191200], msk, msd)
    ])
  }


  /** The occurrences of transition 0 of the Moscow table are the civil times named above. */
  lemma MoscowDates0()
    ensures Moscow().transitions[0].occurrences[0] == Datetime.Timestamp(2010, 10, 31, 3, 0, 0)
    ensures Moscow().transitions[0].occurrences[1] == Datetime.Timestamp(2014, 10, 26, 2, 0, 0)
  {
  }

  /** The occurrences of transition 1 of the Moscow table are the civil times named above. */
  lemma MoscowDates1()
    ensures Moscow().transitions[1].occurrences[0] == Datetime.Timestamp(2010, 3, 28, 2, 0, 0)
    ensures Moscow().transitions[1].occurrences[1] == Datetime.Timestamp(2011, 3, 27, 2, 0, 0)
  {
  }

  lemma Moscow20101030()
    ensures Moscow().HasOccurrence()
    ensures ToUtc(Moscow(), Datetime.Timestamp(2010, 10, 30, 2, 0, 0)) == Datetime.Timestamp(2010, 10, 29, 22, 0, 0)
  {
    assert Datetime.Timestamp(2010, 10, 30, 2, 0, 0) == 1288404000 && Datetime.Timestamp(2010, 10, 29, 22, 0, 0) == 1288389600;
    var trs := Moscow().transitions;
    assert trs[0].occurrences != [];
    assert LastAtOrBefore(trs[0].occurrences, 1288404000).None?;
    LastAtOrBeforeStopsAt(trs[1].occurrences, 1288404000, 0);
    ToUtcAfterTransition(Moscow(), 1288404000, 1);
  }

  lemma Moscow20101101()
    ensures Moscow().HasOccurrence()
    ensures ToUtc(Moscow(), Datetime.Timestamp(2010, 11, 1, 2, 0, 0)) == Datetime.Timestamp(2010, 10, 31, 23, 0, 0)
  {
    assert Datetime.Timestamp(2010, 11, 1, 2, 0, 0) == 1288576800 && Datetime.Timestamp(2010, 10, 31, 23, 0, 0) == 1288566000;
    var trs := Moscow().transitions;
    assert trs[0].occurrences != [];
    LastAtOrBeforeStopsAt(trs[0].occurrences, 1288576800, 0);
    LastAtOrBeforeStopsAt(trs[1].occurrences, 1288576800, 0);
    ToUtcAfterTransition(Moscow(), 1288576800, 0);
  }

  lemma Moscow20151101()
    ensures Moscow().HasOccurrence()
    ensures ToUtc(Moscow(), Datetime.Timestamp(2015, 11, 1, 2, 0, 0)) == Datetime.Timestamp(2015, 10, 31, 23, 0, 0)
  {
    assert Datetime.Timestamp(2015, 11, 1, 2, 0, 0) == 1446343200 && Datetime.Timestamp(2015, 10, 31, 23, 0, 0) == 1446332400;
    var trs := Moscow().transitions;
    assert trs[0].occurrences != [];
    LastAtOrBeforeStopsAt(trs[0].occurrences, 1446343200, 1);
    LastAtOrBeforeStopsAt(trs[1].occurrences, 1446343200, 1);
    ToUtcAfterTransition(Moscow(), 1446343200, 0);
  }
}
