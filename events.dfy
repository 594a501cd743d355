/** The club's events and the month filter of the events section on the home page. */
module Events {
  import Lists

  datatype Event = Event(
    id: nat,
    title: string,
    section: string,
    description: string,
    date: string,
    month: string,
    location: string,
    image: string)

  /** The filter buttons: 'all', then the twelve months in calendar order. */
  const Months: seq<string> := ["all", "janvier", "février", "mars", "avril", "mai", "juin", "juillet", "août",
                                "septembre", "octobre", "novembre", "décembre"]

  /** The events of one month, in list order. */
  function InMonth(events: seq<Event>, month: string): seq<Event> {
    Lists.Filter(events, (e: Event) => e.month == month)
  }

  /** `filteredEvents`: every event for 'all', otherwise exactly the events of the chosen month. */
  function MonthFilter(events: seq<Event>, month: string): (r: seq<Event>)
    ensures month == "all" ==> r == events
    ensures month != "all" ==> forall i :: 0 <= i < |r| ==> r[i] in events && r[i].month == month
    ensures month != "all" ==> forall i :: 0 <= i < |events| && events[i].month == month ==> events[i] in r
  {
    if month == "all" then events else InMonth(events, month)
  }

  /** The filter keeps the events' relative order. */
  lemma MonthFilterKeepsOrder(events: seq<Event>, month: string)
    ensures Lists.IsSubseq(MonthFilter(events, month), events)
  {
    Lists.FilterIsSubseq(events, (e: Event) => e.month == month);
    if month == "all" {
      Lists.FilterKeepsAll(events, (e: Event) => true);
      Lists.FilterIsSubseq(events, (e: Event) => true);
    }
  }

  lemma InMonthStep(events: seq<Event>, e: Event, month: string)
    ensures InMonth(events + [e], month) == InMonth(events, month) + (if e.month == month then [e] else [])
  {
    Lists.FilterAppend(events, [e], (x: Event) => x.month == month);
  }
}
