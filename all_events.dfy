/**
 * The "all events" dialog: four combined filters (month, section, year, text), the option
 * lists of the section and year selectors, and the grouping of the result by month.
 */
module AllEvents {
  import opened JsText
  import JsNumber
  import Lists
  import opened Events

  /** `determineEventYear`: a demonstration year derived from the id. */
  function EventYear(id: nat, currentYear: int): (r: string)
    ensures id % 3 == 0 ==> JsNumber.ParseInt(r) == JsNumber.Finite(currentYear - 2)
    ensures id % 3 != 0 && id % 2 == 0 ==> JsNumber.ParseInt(r) == JsNumber.Finite(currentYear - 1)
    ensures id % 3 != 0 && id % 2 != 0 ==> JsNumber.ParseInt(r) == JsNumber.Finite(currentYear)
  {
    JsNumber.IntToStringRoundTrip(currentYear);
    JsNumber.IntToStringRoundTrip(currentYear - 1);
    JsNumber.IntToStringRoundTrip(currentYear - 2);
    if id % 3 == 0 then JsNumber.IntToString(currentYear - 2)
    else if id % 2 == 0 then JsNumber.IntToString(currentYear - 1)
    else JsNumber.IntToString(currentYear)
  }

  /** The year selector: 'all', then the current year and the two before it. */
  function YearOptions(currentYear: int): (r: seq<string>)
    ensures |r| == 4 && r[0] == "all"
    ensures forall i :: 1 <= i < |r| ==> r[i] != "all"
  {
    NumberIsNotAll(currentYear);
    NumberIsNotAll(currentYear - 1);
    NumberIsNotAll(currentYear - 2);
    ["all", JsNumber.IntToString(currentYear), JsNumber.IntToString(currentYear - 1), JsNumber.IntToString(currentYear - 2)]
  }

  lemma YearOptionsReadBack(currentYear: int)
    ensures JsNumber.ParseInt(YearOptions(currentYear)[1]) == JsNumber.Finite(currentYear)
    ensures JsNumber.ParseInt(YearOptions(currentYear)[2]) == JsNumber.Finite(currentYear - 1)
    ensures JsNumber.ParseInt(YearOptions(currentYear)[3]) == JsNumber.Finite(currentYear - 2)
  {
    JsNumber.IntToStringRoundTrip(currentYear);
    JsNumber.IntToStringRoundTrip(currentYear - 1);
    JsNumber.IntToStringRoundTrip(currentYear - 2);
  }

  /** A written number starts with a digit or a minus sign, so it is never 'all'. */
  lemma NumberIsNotAll(i: int)
    ensures JsNumber.IntToString(i) != "all"
  {
    var s := JsNumber.IntToString(i);
    if i >= 0 {
      assert JsNumber.IsDigit(s[0]);
    } else {
      assert s[0] == '-';
    }
  }

  /** The four year options are distinct. */
  lemma YearOptionsDistinct(currentYear: int)
    ensures Lists.NoDup(YearOptions(currentYear))
  {
    var a, b, c := JsNumber.IntToString(currentYear), JsNumber.IntToString(currentYear - 1), JsNumber.IntToString(currentYear - 2);
    NumberIsNotAll(currentYear);
    NumberIsNotAll(currentYear - 1);
    NumberIsNotAll(currentYear - 2);
    if a == b { JsNumber.IntToStringInjective(currentYear, currentYear - 1); }
    if a == c { JsNumber.IntToStringInjective(currentYear, currentYear - 2); }
    if b == c { JsNumber.IntToStringInjective(currentYear - 1, currentYear - 2); }
    var opts := YearOptions(currentYear);
    assert opts == ["all", a, b, c];
    forall i, j | 0 <= i < j < |opts| ensures opts[i] != opts[j] {
      assert i == 0 || i == 1 || i == 2;
      assert j == 1 || j == 2 || j == 3;
    }
  }

  /** Every assigned year is one of the three offered years, and not 'all'. */
  lemma EventYearIsOffered(id: nat, currentYear: int)
    ensures EventYear(id, currentYear) in YearOptions(currentYear)[1..]
    ensures EventYear(id, currentYear) != "all"
  {
    var opts := YearOptions(currentYear);
    assert opts[1..] == [opts[1], opts[2], opts[3]];
    if id % 3 == 0 {
      NumberIsNotAll(currentYear - 2);
    } else if id % 2 == 0 {
      NumberIsNotAll(currentYear - 1);
    } else {
      NumberIsNotAll(currentYear);
    }
  }

  /** The dialog's selector and search values. */
  datatype Criteria = Criteria(month: string, section: string, year: string, search: string, currentYear: int)

  /** The four tests of `filteredEvents`. The search is compared case-insensitively and is not trimmed. */
  predicate Shown(e: Event, c: Criteria): (r: bool)
    ensures c.month == "all" && c.section == "all" && c.year == "all" && c.search == "" ==> r
    ensures c.year !in YearOptions(c.currentYear) ==> !r
  {
    EventYearIsOffered(e.id, c.currentYear);
    && (c.month == "all" || e.month == c.month)
    && (c.section == "all" || e.section == c.section)
    && (c.year == "all" || EventYear(e.id, c.currentYear) == c.year)
    && (c.search == ""
        || Contains(ToLower(e.title), ToLower(c.search))
        || Contains(ToLower(e.description), ToLower(c.search)))
  }

  /** `filteredEvents`: exactly the events passing all four tests, in list order. */
  function Filtered(events: seq<Event>, c: Criteria): (r: seq<Event>)
    ensures forall i :: 0 <= i < |r| ==> r[i] in events && Shown(r[i], c)
    ensures forall i :: 0 <= i < |events| && Shown(events[i], c) ==> events[i] in r
  {
    Lists.Filter(events, (e: Event) => Shown(e, c))
  }

  lemma FilteredKeepsOrder(events: seq<Event>, c: Criteria)
    ensures Lists.IsSubseq(Filtered(events, c), events)
  {
    Lists.FilterIsSubseq(events, (e: Event) => Shown(e, c));
  }

  /** With every selector on 'all' and no search text, nothing is filtered out. */
  lemma NoCriteriaShowsAll(events: seq<Event>, currentYear: int)
    ensures Filtered(events, Criteria("all", "all", "all", "", currentYear)) == events
  {
    Lists.FilterKeepsAll(events, (e: Event) => Shown(e, Criteria("all", "all", "all", "", currentYear)));
  }

  /** `events.map(e => e.section)`. */
  function SectionNames(events: seq<Event>): (names: seq<string>)
    ensures |names| == |events|
    ensures forall i :: 0 <= i < |events| ==> names[i] == events[i].section
  {
    seq(|events|, i requires 0 <= i < |events| => events[i].section)
  }

  /** The section selector: 'all', then each distinct section once, in order of first appearance. */
  function SectionOptions(events: seq<Event>): (r: seq<string>)
    ensures |r| >= 1 && r[0] == "all"
    ensures forall i :: 0 <= i < |events| ==> events[i].section in r
    ensures forall i :: 1 <= i < |r| ==> exists j :: 0 <= j < |events| && events[j].section == r[i]
    ensures Lists.NoDup(r[1..])
    ensures forall i :: 1 <= i < |r| ==> r[i] in SectionNames(events)
    ensures forall i, j :: 1 <= i < j < |r| ==>
      Lists.FirstIndex(SectionNames(events), r[i]) < Lists.FirstIndex(SectionNames(events), r[j])
  {
    var names := SectionNames(events);
    var d := Lists.Dedup(names);
    var r := ["all"] + d;
    assert r[1..] == d;
    forall i | 0 <= i < |events| ensures events[i].section in r {
      assert names[i] == events[i].section && names[i] in d;
      assert events[i].section in r[1..];
    }
    forall i | 1 <= i < |r| ensures exists j :: 0 <= j < |events| && events[j].section == r[i] {
      assert r[i] == d[i - 1] && d[i - 1] in names;
      var j :| 0 <= j < |names| && names[j] == r[i];
      assert events[j].section == r[i];
    }
    r
  }

  datatype MonthGroup = MonthGroup(month: string, events: seq<Event>)

  /** A month of the calendar list that gets a key: not 'all', and with at least one event. */
  predicate HasKey(events: seq<Event>, month: string) {
    month != "all" && InMonth(events, month) != []
  }

  /** The months that get a key, in calendar order. */
  function KeyedMonths(months: seq<string>, events: seq<Event>): seq<string> {
    Lists.Filter(months, (m: string) => HasKey(events, m))
  }

  lemma KeyedMonthsStep(months: seq<string>, m: string, events: seq<Event>)
    ensures KeyedMonths(months + [m], events) == KeyedMonths(months, events) + (if HasKey(events, m) then [m] else [])
  {
    Lists.FilterAppend(months, [m], (x: string) => HasKey(events, x));
  }

  /** `eventsByMonth` as an ordered list of entries: one per keyed month, holding that month's events. */
  function ByMonth(months: seq<string>, events: seq<Event>): (r: seq<MonthGroup>)
    ensures |r| == |KeyedMonths(months, events)|
    ensures forall i :: 0 <= i < |r| ==> r[i].month == KeyedMonths(months, events)[i] && r[i].events == InMonth(events, r[i].month)
  {
    var keyed := KeyedMonths(months, events);
    seq(|keyed|, i requires 0 <= i < |keyed| => MonthGroup(keyed[i], InMonth(events, keyed[i])))
  }

  /** The entries are the months with events, in calendar order, each holding only and all of its events. */
  lemma ByMonthMeaning(months: seq<string>, events: seq<Event>)
    ensures Lists.IsSubseq(KeyedMonths(months, events), months)
    ensures forall g :: g in ByMonth(months, events) ==>
      g.month in months && g.month != "all" && g.events != []
      && forall e :: e in g.events <==> e in events && e.month == g.month
    ensures forall m :: m in months && HasKey(events, m) ==> exists g :: g in ByMonth(months, events) && g.month == m
  {
    Lists.FilterIsSubseq(months, (m: string) => HasKey(events, m));
    var r := ByMonth(months, events);
    var keyed := KeyedMonths(months, events);
    forall g | g in r
      ensures g.month in months && g.month != "all" && g.events != []
      ensures forall e :: e in g.events <==> e in events && e.month == g.month
    {
      var i :| 0 <= i < |r| && r[i] == g;
      assert g.month == keyed[i];
      forall e ensures e in g.events <==> e in events && e.month == g.month {
        if e in events && e.month == g.month {
          var j :| 0 <= j < |events| && events[j] == e;
        }
      }
    }
    forall m | m in months && HasKey(events, m) ensures exists g :: g in r && g.month == m {
      var j :| 0 <= j < |months| && months[j] == m;
      var i :| 0 <= i < |keyed| && keyed[i] == m;
      assert r[i].month == m;
    }
  }

  /** The `forEach` over the month list that fills `eventsByMonth`. */
  method GroupByMonth(months: seq<string>, filtered: seq<Event>) returns (groups: seq<MonthGroup>)
    ensures groups == ByMonth(months, filtered)
  {
    groups := [];
    var i := 0;
    while i < |months|
      invariant 0 <= i <= |months|
      invariant groups == ByMonth(months[..i], filtered)
    {
      var month := months[i];
      assert months[..i + 1] == months[..i] + [month];
      KeyedMonthsStep(months[..i], month, filtered);
      if month != "all" {
        var monthEvents := InMonth(filtered, month);
        if |monthEvents| > 0 {
          groups := groups + [MonthGroup(month, monthEvents)];
        }
      }
      i := i + 1;
    }
    assert months[..i] == months;
  }
}
