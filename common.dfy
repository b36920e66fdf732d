/** Shared vocabulary: optional values, results with the system's error taxonomy,
    parameter lookup as a hash map sees it, and the foreign libraries the core
    calls (date parsing and the recurrence-rule engine), passed in as values. */
module Common {

  datatype Option<+T> = None | Some(value: T)

  /** The failures the core reports. The source carries them as messages of
      `anyhow` errors; here each message has a constructor of its own. */
  datatype Error =
    | MalformedValue            // a date, time or offset the parser rejects
    | MissingTimezone           // local time without a TZID parameter
    | AmbiguousTimezone         // TZID parameter with zero or several values
    | MixedRangeVariants        // start and end disagree on date versus date-time
    | MissingProperty(name: string)
    | EmptySeries
    | MultipleMasters
    | NoMaster
    | OverrideWithoutRecurrence
    | MissingTimezoneId
    | InvalidToken

  datatype Result<+T> = Ok(value: T) | Err(error: Error) {
    predicate IsFailure() { Err? }

    function PropagateFailure<U>(): Result<U>
      requires Err?
    {
      Err(error)
    }

    function Extract(): T
      requires Ok?
    {
      value
    }
  }

  /** Parameters of one property: name and list of values, in source order. */
  type Params = seq<(string, seq<string>)>

  /** The values of parameter `key` once `params` is collected into a hash map:
      the last entry with that name wins. */
  function LastParam(params: Params, key: string): (r: Option<seq<string>>)
    ensures r.None? <==> forall i :: 0 <= i < |params| ==> params[i].0 != key
    ensures r.Some? ==> exists i :: 0 <= i < |params| && params[i] == (key, r.value)
                                    && forall j :: i < j < |params| ==> params[j].0 != key
  {
    if params == [] then None
    else if params[|params| - 1].0 == key then Some(params[|params| - 1].1)
    else LastParam(params[..|params| - 1], key)
  }

  /** The date and time parsers of the chrono crate, as partial functions onto
      integers: `date` reads `%Y%m%d` into a day number, `dateTime` reads
      `%Y%m%dT%H%M%S` into seconds of a naive clock, `offset` reads a UTC offset
      into seconds east of UTC. `None` is a parse failure. */
  datatype Formats = Formats(
    date: string -> Option<int>,
    dateTime: string -> Option<int>,
    offset: string -> Option<int>)

  /** The rrule crate. `parses(text)` says whether `RRule::from_str` accepts the
      rule; `validate(text, dtstart)` is the rule validated against its start,
      given as the finite list of occurrence instants its rule set yields, or
      `None` when validation fails. */
  datatype RuleEngine = RuleEngine(
    parses: string -> bool,
    validate: (string, int) -> Option<seq<int>>)

  ghost predicate Ascending(s: seq<int>) {
    forall i, j :: 0 <= i < j < |s| ==> s[i] <= s[j]
  }

  function Min(a: int, b: int): int { if a <= b then a else b }
}
