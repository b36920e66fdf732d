/** The already-tokenized calendar document the core consumes: components made
    of properties, each property a name, an optional value and its parameters. */
module Ical {
  import opened Common

  /** One content line. The tokenizer's absent parameter list is the empty one. */
  datatype Property = Property(name: string, value: Option<string>, params: Params)

  datatype IcalEvent = IcalEvent(properties: seq<Property>)

  /** A STANDARD or DAYLIGHT block of a VTIMEZONE. */
  datatype IcalTransition = IcalTransition(properties: seq<Property>)

  datatype IcalTimeZone = IcalTimeZone(properties: seq<Property>, transitions: seq<IcalTransition>)

  datatype IcalCalendar = IcalCalendar(timezones: seq<IcalTimeZone>, events: seq<IcalEvent>)

  /** The property named `name` once the properties are collected into a hash
      map keyed by name: the last one wins. */
  function Lookup(props: seq<Property>, name: string): (r: Option<Property>)
    ensures r.None? <==> forall i :: 0 <= i < |props| ==> props[i].name != name
    ensures r.Some? ==> exists i :: 0 <= i < |props| && props[i] == r.value && r.value.name == name
                                    && forall j :: i < j < |props| ==> props[j].name != name
  {
    if props == [] then None
    else if props[|props| - 1].name == name then Some(props[|props| - 1])
    else Lookup(props[..|props| - 1], name)
  }

  /** The first property named `name`, as `iter().find` returns it. */
  function FindFirst(props: seq<Property>, name: string): (r: Option<Property>)
    ensures r.None? <==> forall i :: 0 <= i < |props| ==> props[i].name != name
    ensures r.Some? ==> exists i :: 0 <= i < |props| && props[i] == r.value && r.value.name == name
                                    && forall j :: 0 <= j < i ==> props[j].name != name
  {
    if props == [] then None
    else if props[0].name == name then Some(props[0])
    else FindFirst(props[1..], name)
  }
}
