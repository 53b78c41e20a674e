/**
 * The extraction pipeline of `CrawlerService.crawl()`: the bot-protection gate, the
 * structured extraction of the embedded `days` array, and the fallback that walks the
 * calendar's table rows.
 *
 * Foreign parts are parameters: `JSON.parse` of the captured block is `parseDays`
 * (None when it throws), cheerio's rows are given as their already-trimmed cells, and
 * `new Date(string)` is `dateOf` (None for an Invalid Date). Instants are epoch
 * milliseconds.
 */
module Crawler {
  import opened Wrappers
  import DaysBlock

  /** The calendar page every record points back to. */
  const CalendarUrl: string := "https://www.cryptocraft.com/calendar"

  /** Milliseconds in a UTC day. */
  const MsPerDay: int := 86400000

  /** The response status treated as bot protection. */
  const BotProtectionStatus: int := 403

  /** The time-cell text that is a placeholder, not a time of day. */
  const TentativeLabel: string := "Tentative"

  /** One object pushed onto `rows`; `eventDate` is an instant in epoch milliseconds. */
  datatype CalendarRow = CalendarRow(
    eventDate: int,
    eventTime: Option<string>,
    country: Option<string>,
    title: string,
    impact: Option<string>,
    actual: Option<string>,
    forecast: Option<string>,
    previous: Option<string>,
    sourceUrl: string)

  // ---------------------------------------------------------------------------
  // Normalisation

  /** JavaScript falsiness of an optional string: missing, null or "". */
  predicate Falsy(v: Option<string>) {
    v.None? || v.value == ""
  }

  /** `v || null`: null for a falsy value, so a present result is never "". */
  function OrNull(v: Option<string>): (r: Option<string>)
    ensures r.None? <==> Falsy(v)
    ensures r.Some? ==> r == v && r.value != ""
  {
    if Falsy(v) then None else v
  }

  /** `r` is what `v || null` must give: null for a falsy `v`, `v` itself otherwise. */
  predicate NullWhenFalsy(v: Option<string>, r: Option<string>) {
    (Falsy(v) ==> r.None?) && (!Falsy(v) ==> r == v)
  }

  /** `name || prefixedName || ''` */
  function ResolveTitle(name: Option<string>, prefixedName: Option<string>): (title: string)
    ensures title == "" <==> Falsy(name) && Falsy(prefixedName)
    ensures !Falsy(name) ==> title == name.value
    ensures Falsy(name) && !Falsy(prefixedName) ==> title == prefixedName.value
  {
    if !Falsy(name) then name.value
    else if !Falsy(prefixedName) then prefixedName.value
    else ""
  }

  /**
   * `Date.UTC` of the UTC year, month and day of instant t: the UTC midnight that
   * starts t's day. Dafny's `%` is Euclidean, so negative instants round down too.
   * `Date.UTC` reads a year from 0 to 99 as 1900 to 1999; instants in those years
   * are outside this model, which keeps the day the instant falls in.
   */
  function DayStart(t: int): (d: int)
    ensures d % MsPerDay == 0
    ensures d <= t < d + MsPerDay
  {
    t - t % MsPerDay
  }

  /** Any UTC midnight whose day contains t is DayStart(t). */
  lemma DayStartUnique(t: int, d: int)
    requires d % MsPerDay == 0 && d <= t < d + MsPerDay
    ensures d == DayStart(t)
  {
    var q := d / MsPerDay;
    assert d == q * MsPerDay;
    assert 0 <= t - q * MsPerDay < MsPerDay;
    assert t / MsPerDay == q;
  }

  /** Truncating an already truncated instant changes nothing. */
  lemma DayStartIdempotent(t: int)
    ensures DayStart(DayStart(t)) == DayStart(t)
  {
    var d := DayStart(t);
    DayStartUnique(d, d);
  }

  // ---------------------------------------------------------------------------
  // Structured extraction

  /**
   * One element of a day's `events` array, read with the fields the crawler uses.
   * A string field is None when missing or null.
   */
  datatype RawEvent = RawEvent(
    dateline: int,
    timeLabel: Option<string>,
    country: Option<string>,
    name: Option<string>,
    prefixedName: Option<string>,
    impactName: Option<string>,
    actual: Option<string>,
    forecast: Option<string>,
    previous: Option<string>)

  /** An element of `day.events`; reading a field of a null element throws. */
  datatype EventEntry = NullEvent | Event(event: RawEvent)

  /** An element of the parsed array; `events` is None when missing or null. */
  datatype DayEntry = NullDay | Day(events: Option<seq<EventEntry>>)

  /** The record pushed for one structured event. */
  function StructuredRecord(e: RawEvent): (r: CalendarRow)
    ensures r.eventDate % MsPerDay == 0
    ensures r.eventDate <= e.dateline * 1000 < r.eventDate + MsPerDay
    ensures r.title != "" <==> !Falsy(e.name) || !Falsy(e.prefixedName)
    ensures !Falsy(e.name) ==> r.title == e.name.value
    ensures Falsy(e.name) && !Falsy(e.prefixedName) ==> r.title == e.prefixedName.value
    ensures NullWhenFalsy(e.timeLabel, r.eventTime) && NullWhenFalsy(e.country, r.country)
    ensures NullWhenFalsy(e.impactName, r.impact) && NullWhenFalsy(e.actual, r.actual)
    ensures NullWhenFalsy(e.forecast, r.forecast) && NullWhenFalsy(e.previous, r.previous)
    ensures r.sourceUrl == CalendarUrl
  {
    CalendarRow(
      DayStart(e.dateline * 1000),
      OrNull(e.timeLabel),
      OrNull(e.country),
      ResolveTitle(e.name, e.prefixedName),
      OrNull(e.impactName),
      OrNull(e.actual),
      OrNull(e.forecast),
      OrNull(e.previous),
      CalendarUrl)
  }

  /**
   * A CPI event dated 1700000000 (2023-11-14T22:13:20Z) becomes a record of that
   * UTC day, 2023-11-14T00:00:00Z, with its name, country and impact.
   */
  lemma CpiScenario()
    ensures var r := StructuredRecord(RawEvent(1700000000, None, Some("US"), Some("CPI m/m"), None, Some("High"), None, None, None));
      && r.title == "CPI m/m"
      && r.eventDate == 1699920000000
      && r.country == Some("US") && r.impact == Some("High")
      && r.eventTime.None? && r.actual.None? && r.forecast.None? && r.previous.None?
  {
  }

  /** What the `try` block leaves in `rows`, and whether it ended in an exception. */
  datatype Outcome = Completed(rows: seq<CalendarRow>) | Aborted(rows: seq<CalendarRow>)

  /** Running `b` after `a`: an exception in `a` skips `b`. */
  function Then(a: Outcome, b: Outcome): Outcome {
    if a.Aborted? then a
    else if b.Completed? then Completed(a.rows + b.rows)
    else Aborted(a.rows + b.rows)
  }

  function EventOutcome(entry: EventEntry): Outcome {
    match entry
    case NullEvent => Aborted([])
    case Event(e) => Completed([StructuredRecord(e)])
  }

  /** The inner loop as a specification: at most one record per event, and one per event when it completes. */
  function EventsOutcome(entries: seq<EventEntry>): (o: Outcome)
    ensures |o.rows| <= |entries|
    ensures o.Completed? ==> |o.rows| == |entries|
  {
    if entries == [] then Completed([])
    else Then(EventsOutcome(entries[..|entries| - 1]), EventOutcome(entries[|entries| - 1]))
  }

  /** `for (const event of day.events || [])`; `day.events` of a null day throws. */
  function DayOutcome(day: DayEntry): (o: Outcome)
    ensures o.rows != [] ==> day.Day? && day.events.Some?
    ensures day.NullDay? ==> o.Aborted?
  {
    match day
    case NullDay => Aborted([])
    case Day(None) => Completed([])
    case Day(Some(entries)) => EventsOutcome(entries)
  }

  /** The nested loops over the parsed days, as a specification. */
  function StructuredOutcome(days: seq<DayEntry>): (o: Outcome)
    ensures o.Completed? ==> forall i :: 0 <= i < |days| ==> days[i].Day?
  {
    if days == [] then Completed([])
    else
      var init := days[..|days| - 1];
      assert forall i :: 0 <= i < |init| ==> init[i] == days[i];
      Then(StructuredOutcome(init), DayOutcome(days[|days| - 1]))
  }

  /** Once the events of a prefix have thrown, later events change nothing. */
  lemma {:induction false} EventsAbortSticks(entries: seq<EventEntry>, k: nat)
    requires k <= |entries| && EventsOutcome(entries[..k]).Aborted?
    ensures EventsOutcome(entries) == EventsOutcome(entries[..k])
    decreases |entries|
  {
    if k < |entries| {
      var init := entries[..|entries| - 1];
      assert init[..k] == entries[..k];
      EventsAbortSticks(init, k);
    } else {
      assert entries[..k] == entries;
    }
  }

  /** Once the days of a prefix have thrown, later days change nothing. */
  lemma {:induction false} StructuredAbortSticks(days: seq<DayEntry>, i: nat)
    requires i <= |days| && StructuredOutcome(days[..i]).Aborted?
    ensures StructuredOutcome(days) == StructuredOutcome(days[..i])
    decreases |days|
  {
    if i < |days| {
      var init := days[..|days| - 1];
      assert init[..i] == days[..i];
      StructuredAbortSticks(init, i);
    } else {
      assert days[..i] == days;
    }
  }

  /**
   * The inner loop of lines 82-98 over one day's events, appending to `rows`;
   * `threw` tells whether it stopped at an exception.
   */
  method PushEvents(rows0: seq<CalendarRow>, entries: seq<EventEntry>) returns (rows: seq<CalendarRow>, threw: bool)
    ensures Then(Completed(rows0), EventsOutcome(entries)) == (if threw then Aborted(rows) else Completed(rows))
  {
    rows := rows0;
    var k := 0;
    while k < |entries|
      invariant k <= |entries|
      invariant Then(Completed(rows0), EventsOutcome(entries[..k])) == Completed(rows)
    {
      assert entries[..k + 1][..k] == entries[..k];
      if entries[k].NullEvent? {
        EventsAbortSticks(entries, k + 1);
        return rows, true;
      }
      rows := rows + [StructuredRecord(entries[k].event)];
      k := k + 1;
    }
    assert entries[..k] == entries;
    threw := false;
  }

  /**
   * The `try` block of lines 78-99: the nested loops push one record per event and
   * stop at the first exception, keeping what was pushed before it.
   */
  method ExtractStructured(days: seq<DayEntry>) returns (rows: seq<CalendarRow>)
    ensures rows == StructuredOutcome(days).rows
  {
    rows := [];
    var i := 0;
    while i < |days|
      invariant i <= |days|
      invariant StructuredOutcome(days[..i]) == Completed(rows)
    {
      assert days[..i + 1][..i] == days[..i];
      var day := days[i];
      if day.NullDay? {
        StructuredAbortSticks(days, i + 1);
        return;
      }
      var threw;
      rows, threw := PushEvents(rows, if day.events.Some? then day.events.value else []);
      if threw {
        StructuredAbortSticks(days, i + 1);
        return;
      }
      i := i + 1;
    }
    assert days[..i] == days;
  }

  /** The records of a list of events, one per event and in the same order. */
  function Records(events: seq<RawEvent>): (r: seq<CalendarRow>)
    ensures |r| == |events|
    ensures forall k :: 0 <= k < |events| ==> r[k] == StructuredRecord(events[k])
  {
    seq(|events|, k requires 0 <= k < |events| => StructuredRecord(events[k]))
  }

  lemma RecordsAppend(a: seq<RawEvent>, b: seq<RawEvent>)
    ensures Records(a + b) == Records(a) + Records(b)
  {
    assert forall k :: 0 <= k < |a + b| ==> Records(a + b)[k] == (Records(a) + Records(b))[k];
  }

  /** The entries of a day whose events are all objects. */
  function AsEntries(events: seq<RawEvent>): (r: seq<EventEntry>)
    ensures |r| == |events|
    ensures forall k :: 0 <= k < |events| ==> r[k] == Event(events[k])
  {
    seq(|events|, k requires 0 <= k < |events| => Event(events[k]))
  }

  /** The events of a list of entries, null entries left out. */
  function EntryEvents(entries: seq<EventEntry>): seq<RawEvent> {
    if entries == [] then []
    else
      var last := entries[|entries| - 1];
      EntryEvents(entries[..|entries| - 1]) + (if last.Event? then [last.event] else [])
  }

  function DayEvents(day: DayEntry): seq<RawEvent> {
    if day.Day? && day.events.Some? then EntryEvents(day.events.value) else []
  }

  /** Every event object of every day, day by day and in array order. */
  function AllEvents(days: seq<DayEntry>): seq<RawEvent> {
    if days == [] then []
    else AllEvents(days[..|days| - 1]) + DayEvents(days[|days| - 1])
  }

  /** A day whose processing throws: a null day, or a null among its events. */
  predicate DayThrows(day: DayEntry) {
    day.NullDay? || (day.events.Some? && exists k :: 0 <= k < |day.events.value| && day.events.value[k].NullEvent?)
  }

  predicate NoneThrows(days: seq<DayEntry>) {
    forall i :: 0 <= i < |days| ==> !DayThrows(days[i])
  }

  /** Running b after a keeps the prefix relation of each part to its full records. */
  lemma ThenIsPrefix(a: Outcome, b: Outcome, xs: seq<CalendarRow>, ys: seq<CalendarRow>)
    requires a.rows <= xs && (a.Completed? ==> a.rows == xs)
    requires b.rows <= ys && (b.Completed? ==> b.rows == ys)
    ensures Then(a, b).rows <= xs + ys
    ensures Then(a, b).Completed? <==> a.Completed? && b.Completed?
    ensures Then(a, b).Completed? ==> Then(a, b).rows == xs + ys
  {
    if a.Completed? {
      assert (xs + ys)[..|xs| + |b.rows|] == xs + b.rows by {
        assert ys[..|b.rows|] == b.rows;
      }
    } else {
      assert (xs + ys)[..|a.rows|] == xs[..|a.rows|];
    }
  }

  lemma {:induction false} EventsOutcomeIsPrefix(entries: seq<EventEntry>)
    ensures EventsOutcome(entries).rows <= Records(EntryEvents(entries))
    ensures EventsOutcome(entries).Completed? ==> EventsOutcome(entries).rows == Records(EntryEvents(entries))
    ensures EventsOutcome(entries).Completed? <==> forall k :: 0 <= k < |entries| ==> entries[k].Event?
  {
    if entries != [] {
      var init, last := entries[..|entries| - 1], entries[|entries| - 1];
      EventsOutcomeIsPrefix(init);
      var tail := if last.Event? then [last.event] else [];
      RecordsAppend(EntryEvents(init), tail);
      ThenIsPrefix(EventsOutcome(init), EventOutcome(last), Records(EntryEvents(init)), Records(tail));
      assert forall k :: 0 <= k < |init| ==> init[k] == entries[k];
    }
  }

  lemma DayOutcomeIsPrefix(day: DayEntry)
    ensures DayOutcome(day).rows <= Records(DayEvents(day))
    ensures DayOutcome(day).Completed? ==> DayOutcome(day).rows == Records(DayEvents(day))
    ensures DayOutcome(day).Completed? <==> !DayThrows(day)
  {
    if day.Day? && day.events.Some? {
      EventsOutcomeIsPrefix(day.events.value);
    }
  }

  /**
   * The structured rows are always the records of the leading events in
   * day-then-event order; without an exception they are the records of all events,
   * one per event.
   */
  lemma {:induction false} StructuredIsPrefix(days: seq<DayEntry>)
    ensures StructuredOutcome(days).rows <= Records(AllEvents(days))
    ensures StructuredOutcome(days).Completed? <==> NoneThrows(days)
    ensures NoneThrows(days) ==> StructuredOutcome(days).rows == Records(AllEvents(days))
  {
    if days != [] {
      var init, last := days[..|days| - 1], days[|days| - 1];
      StructuredIsPrefix(init);
      DayOutcomeIsPrefix(last);
      RecordsAppend(AllEvents(init), DayEvents(last));
      ThenIsPrefix(StructuredOutcome(init), DayOutcome(last), Records(AllEvents(init)), Records(DayEvents(last)));
      assert forall i :: 0 <= i < |init| ==> init[i] == days[i];
    }
  }

  /** An exception at a day keeps exactly the records pushed for the days before it. */
  lemma {:induction false} AbortKeepsEarlierRows(before: seq<DayEntry>, after: seq<DayEntry>)
    requires NoneThrows(before)
    ensures StructuredOutcome(before + [NullDay] + after) == Aborted(Records(AllEvents(before)))
  {
    var days := before + [NullDay] + after;
    StructuredIsPrefix(before);
    assert days[..|before| + 1][..|before|] == before;
    StructuredAbortSticks(days, |before| + 1);
  }

  /** Events without a null among them complete, with one record each. */
  lemma {:induction false} EventsComplete(events: seq<RawEvent>)
    ensures EventsOutcome(AsEntries(events)) == Completed(Records(events))
  {
    if events != [] {
      var init := events[..|events| - 1];
      assert AsEntries(events)[..|events| - 1] == AsEntries(init);
      EventsComplete(init);
      RecordsAppend(init, [events[|events| - 1]]);
      assert init + [events[|events| - 1]] == events;
    }
  }

  /**
   * A null event inside a day after throw-free days ends the loops and keeps exactly
   * the records of those days and of the events before it in its own day.
   */
  lemma {:induction false} NullEventKeepsEarlierRows(before: seq<DayEntry>, events: seq<RawEvent>,
                                                     rest: seq<EventEntry>, after: seq<DayEntry>)
    requires NoneThrows(before)
    ensures var day := Day(Some(AsEntries(events) + [NullEvent] + rest));
      StructuredOutcome(before + [day] + after) == Aborted(Records(AllEvents(before)) + Records(events))
  {
    var entries := AsEntries(events) + [NullEvent] + rest;
    var n := |events|;
    assert entries[..n + 1][..n] == AsEntries(events);
    EventsComplete(events);
    EventsAbortSticks(entries, n + 1);
    var day := Day(Some(entries));
    var days := before + [day] + after;
    StructuredIsPrefix(before);
    assert days[..|before| + 1][..|before|] == before;
    StructuredAbortSticks(days, |before| + 1);
  }

  // ---------------------------------------------------------------------------
  // Layout extraction

  /**
   * The trimmed text of one `.calendar__row`'s cells, in the order the crawler reads
   * them; `imgAlt` is the `alt` attribute of its image (None when absent).
   */
  datatype LayoutCells = LayoutCells(
    date: string,
    time: string,
    title: string,
    imgAlt: Option<string>,
    impact: string,
    actual: string,
    forecast: string,
    previous: string)

  /** `currentDate` after the rows given: the last non-empty date cell, or "". */
  function CarriedDate(cells: seq<LayoutCells>): (d: string)
    ensures d != "" ==> exists k :: 0 <= k < |cells| && cells[k].date == d
  {
    if cells == [] then ""
    else if cells[|cells| - 1].date != "" then cells[|cells| - 1].date
    else CarriedDate(cells[..|cells| - 1])
  }

  lemma {:induction false} CarriedDateIsLatest(cells: seq<LayoutCells>)
    ensures CarriedDate(cells) == "" <==> forall k :: 0 <= k < |cells| ==> cells[k].date == ""
    ensures CarriedDate(cells) != "" ==>
      exists k :: 0 <= k < |cells| && cells[k].date == CarriedDate(cells)
        && forall m :: k < m < |cells| ==> cells[m].date == ""
  {
    if cells != [] {
      var init := cells[..|cells| - 1];
      CarriedDateIsLatest(init);
      assert forall k :: 0 <= k < |init| ==> init[k] == cells[k];
      if cells[|cells| - 1].date == "" && CarriedDate(init) != "" {
        var k :| 0 <= k < |init| && init[k].date == CarriedDate(init)
          && forall m :: k < m < |init| ==> init[m].date == "";
        assert forall m :: k < m < |cells| ==> cells[m].date == "";
      }
    }
  }

  /** `${n}` for a non-negative integer. */
  function Decimal(n: nat): string {
    var digit := ['0', '1', '2', '3', '4', '5', '6', '7', '8', '9'][n % 10];
    if n < 10 then [digit] else Decimal(n / 10) + [digit]
  }

  /** The date text handed to `new Date(...)`: running date, year and, if usable, time. */
  function DateText(current: string, time: string, year: nat): (text: string)
    ensures text == current + " " + Decimal(year) <==> time == "" || time == TentativeLabel
    ensures time != "" && time != TentativeLabel ==> text == current + " " + Decimal(year) + " " + time
  {
    var dateStr := current + " " + Decimal(year);
    if time != "" && time != TentativeLabel then dateStr + " " + time else dateStr
  }

  /**
   * The instant a layout row is dated with, or None for an Invalid Date: parsed from
   * the running date when there is one, the current instant `now` otherwise.
   */
  function RowDate(current: string, time: string, year: nat, now: int, dateOf: string -> Option<int>): (r: Option<int>)
    ensures current == "" ==> r == Some(now)
    ensures current != "" ==> r == dateOf(DateText(current, time, year))
  {
    if current != "" then dateOf(DateText(current, time, year)) else Some(now)
  }

  /** The record pushed for a qualifying layout row dated `eventDate`. */
  function LayoutFields(cells: LayoutCells, eventDate: int): (r: CalendarRow)
    ensures r.eventDate == eventDate && r.title == cells.title && r.sourceUrl == CalendarUrl
    ensures NullWhenFalsy(Some(cells.time), r.eventTime) && NullWhenFalsy(cells.imgAlt, r.country)
    ensures NullWhenFalsy(Some(cells.impact), r.impact) && NullWhenFalsy(Some(cells.actual), r.actual)
    ensures NullWhenFalsy(Some(cells.forecast), r.forecast) && NullWhenFalsy(Some(cells.previous), r.previous)
  {
    CalendarRow(
      eventDate,
      OrNull(Some(cells.time)),
      OrNull(cells.imgAlt),
      cells.title,
      OrNull(Some(cells.impact)),
      OrNull(Some(cells.actual)),
      OrNull(Some(cells.forecast)),
      OrNull(Some(cells.previous)),
      CalendarUrl)
  }

  /** What one row contributes, given the running date after it was read. */
  function LayoutRecord(cells: LayoutCells, current: string, year: nat, now: int, dateOf: string -> Option<int>): (r: Option<CalendarRow>)
    ensures r.Some? <==> cells.title != "" && RowDate(current, cells.time, year, now, dateOf).Some?
    ensures r.Some? ==> r.value == LayoutFields(cells, RowDate(current, cells.time, year, now, dateOf).value)
  {
    if cells.title == "" then None
    else
      match RowDate(current, cells.time, year, now, dateOf)
      case None => None
      case Some(d) => Some(LayoutFields(cells, d))
  }

  /** The values present in a sequence of options, in order. */
  function Present<T>(opts: seq<Option<T>>): seq<T> {
    if opts == [] then []
    else
      var last := opts[|opts| - 1];
      Present(opts[..|opts| - 1]) + (if last.Some? then [last.value] else [])
  }

  /** The positions of the present values, in order. */
  function PresentAt<T>(opts: seq<Option<T>>): seq<nat> {
    if opts == [] then []
    else
      var last := opts[|opts| - 1];
      PresentAt(opts[..|opts| - 1]) + (if last.Some? then [|opts| - 1] else [])
  }

  /** One position per present value; the positions are in range and strictly increase. */
  lemma {:induction false} PresentAtAscend<T>(opts: seq<Option<T>>)
    ensures var at := PresentAt(opts);
      && |Present(opts)| == |at| <= |opts|
      && (forall m :: 0 <= m < |at| ==> at[m] < |opts|)
      && (forall m, m' :: 0 <= m < m' < |at| ==> at[m] < at[m'])
  {
    if opts != [] {
      PresentAtAscend(opts[..|opts| - 1]);
    }
  }

  /** The m-th present value sits at the m-th position. */
  lemma {:induction false} PresentAtYields<T>(opts: seq<Option<T>>, m: nat)
    requires m < |PresentAt(opts)|
    ensures m < |Present(opts)| && PresentAt(opts)[m] < |opts|
    ensures opts[PresentAt(opts)[m]] == Some(Present(opts)[m])
  {
    var init := opts[..|opts| - 1];
    PresentAtAscend(init);
    if m < |PresentAt(init)| {
      PresentAtYields(init, m);
    }
  }

  /** A position is listed exactly when its value is present. */
  lemma {:induction false} PresentAtComplete<T>(opts: seq<Option<T>>)
    ensures forall k :: 0 <= k < |opts| ==> (k in PresentAt(opts) <==> opts[k].Some?)
  {
    if opts != [] {
      var init := opts[..|opts| - 1];
      PresentAtComplete(init);
      PresentAtAscend(init);
      assert |opts| - 1 !in PresentAt(init);
    }
  }

  /** Every present value comes from some position. */
  lemma {:induction false} PresentFrom<T>(opts: seq<Option<T>>, x: T)
    requires x in Present(opts)
    ensures exists k :: 0 <= k < |opts| && opts[k] == Some(x)
  {
    var init := opts[..|opts| - 1];
    if x in Present(init) {
      PresentFrom(init, x);
      var k :| 0 <= k < |init| && init[k] == Some(x);
      assert opts[k] == Some(x);
    }
  }

  /** What each row contributes, given the date carried to it. */
  function RowRecords(cells: seq<LayoutCells>, year: nat, now: int, dateOf: string -> Option<int>): (r: seq<Option<CalendarRow>>)
    ensures |r| == |cells|
    ensures forall k :: 0 <= k < |cells| ==> r[k] == LayoutRecord(cells[k], CarriedDate(cells[..k + 1]), year, now, dateOf)
  {
    seq(|cells|, k requires 0 <= k < |cells| => LayoutRecord(cells[k], CarriedDate(cells[..k + 1]), year, now, dateOf))
  }

  /** The `.each` pass over the rows, as a specification: the records of the rows that yield one. */
  function LayoutRows(cells: seq<LayoutCells>, year: nat, now: int, dateOf: string -> Option<int>): (rows: seq<CalendarRow>)
    ensures |rows| <= |cells|
  {
    PresentAtAscend(RowRecords(cells, year, now, dateOf));
    Present(RowRecords(cells, year, now, dateOf))
  }

  /** Indices of the rows that yield a record, in row order. */
  function KeptRows(cells: seq<LayoutCells>, year: nat, now: int, dateOf: string -> Option<int>): seq<nat> {
    PresentAt(RowRecords(cells, year, now, dateOf))
  }

  /** The kept rows are distinct row indices in increasing order, one per record. */
  lemma KeptRowsAscend(cells: seq<LayoutCells>, year: nat, now: int, dateOf: string -> Option<int>)
    ensures var kept := KeptRows(cells, year, now, dateOf);
      && |LayoutRows(cells, year, now, dateOf)| == |kept| <= |cells|
      && (forall m :: 0 <= m < |kept| ==> kept[m] < |cells|)
      && (forall m, m' :: 0 <= m < m' < |kept| ==> kept[m] < kept[m'])
  {
    PresentAtAscend(RowRecords(cells, year, now, dateOf));
  }

  /**
   * The m-th layout record is what the m-th kept row yields with the date carried to
   * it: the layout output preserves row order.
   */
  lemma KeptRowsYieldRecords(cells: seq<LayoutCells>, m: nat, year: nat, now: int, dateOf: string -> Option<int>)
    requires m < |KeptRows(cells, year, now, dateOf)|
    ensures var out, kept := LayoutRows(cells, year, now, dateOf), KeptRows(cells, year, now, dateOf);
      && m < |out| && kept[m] < |cells|
      && LayoutRecord(cells[kept[m]], CarriedDate(cells[..kept[m] + 1]), year, now, dateOf) == Some(out[m])
  {
    PresentAtYields(RowRecords(cells, year, now, dateOf), m);
  }

  /** A row is kept exactly when it has a title and its carried date is valid. */
  lemma KeptRowsComplete(cells: seq<LayoutCells>, year: nat, now: int, dateOf: string -> Option<int>)
    ensures var kept := KeptRows(cells, year, now, dateOf);
      forall k :: 0 <= k < |cells| ==>
        (k in kept <==> LayoutRecord(cells[k], CarriedDate(cells[..k + 1]), year, now, dateOf).Some?)
  {
    PresentAtComplete(RowRecords(cells, year, now, dateOf));
  }

  /** No layout record has an empty title, and each one points at the calendar page. */
  lemma LayoutRowsHaveTitles(cells: seq<LayoutCells>, year: nat, now: int, dateOf: string -> Option<int>)
    ensures forall r :: r in LayoutRows(cells, year, now, dateOf) ==> r.title != "" && r.sourceUrl == CalendarUrl
  {
    forall r | r in LayoutRows(cells, year, now, dateOf) ensures r.title != "" && r.sourceUrl == CalendarUrl {
      PresentFrom(RowRecords(cells, year, now, dateOf), r);
    }
  }

  /** The rows before j contribute the same whatever follows them. */
  lemma RowRecordsPrefix(cells: seq<LayoutCells>, j: nat, year: nat, now: int, dateOf: string -> Option<int>)
    requires j <= |cells|
    ensures RowRecords(cells, year, now, dateOf)[..j] == RowRecords(cells[..j], year, now, dateOf)
  {
    var whole, prefix := RowRecords(cells, year, now, dateOf), RowRecords(cells[..j], year, now, dateOf);
    forall k | 0 <= k < j ensures whole[k] == prefix[k] {
      assert cells[..j][..k + 1] == cells[..k + 1];
    }
    assert whole[..j] == prefix;
  }

  /** The pass over one more row appends that row's record, if any. */
  lemma LayoutRowsStep(cells: seq<LayoutCells>, i: nat, year: nat, now: int, dateOf: string -> Option<int>)
    requires i < |cells|
    ensures var r := LayoutRecord(cells[i], CarriedDate(cells[..i + 1]), year, now, dateOf);
      LayoutRows(cells[..i + 1], year, now, dateOf) == LayoutRows(cells[..i], year, now, dateOf) + (if r.Some? then [r.value] else [])
  {
    var c := cells[..i + 1];
    var opts := RowRecords(c, year, now, dateOf);
    RowRecordsPrefix(c, i, year, now, dateOf);
    assert c[..i] == cells[..i];
    assert c[..i + 1] == c;
    assert opts[i] == LayoutRecord(cells[i], CarriedDate(c), year, now, dateOf);
  }

  /**
   * A "Tentative" time is not appended to the date text, yet it is kept as the
   * record's `eventTime`.
   */
  lemma TentativeTimeKept(cells: LayoutCells, current: string, year: nat, now: int, dateOf: string -> Option<int>)
    requires cells.time == TentativeLabel && cells.title != "" && current != ""
    requires dateOf(current + " " + Decimal(year)).Some?
    ensures var r := LayoutRecord(cells, current, year, now, dateOf);
      && r.Some?
      && r.value.eventDate == dateOf(current + " " + Decimal(year)).value
      && r.value.eventTime == Some(TentativeLabel)
  {
  }

  /** A titled row before any date cell is dated with the current instant. */
  lemma UndatedRowsUseNow(cells: seq<LayoutCells>, i: nat, year: nat, now: int, dateOf: string -> Option<int>)
    requires i < |cells| && cells[i].title != ""
    requires forall k :: 0 <= k <= i ==> cells[k].date == ""
    ensures LayoutRecord(cells[i], CarriedDate(cells[..i + 1]), year, now, dateOf) == Some(LayoutFields(cells[i], now))
  {
    CarriedDateIsLatest(cells[..i + 1]);
  }

  /**
   * The `.each` pass of lines 108-150: carries `currentDate` forward, skips rows
   * without a title and rows whose date is invalid, and pushes the others in order.
   */
  method ExtractLayout(cells: seq<LayoutCells>, year: nat, now: int, dateOf: string -> Option<int>)
    returns (rows: seq<CalendarRow>)
    ensures rows == LayoutRows(cells, year, now, dateOf)
  {
    rows := [];
    var currentDate := "";
    var i := 0;
    while i < |cells|
      invariant i <= |cells|
      invariant currentDate == CarriedDate(cells[..i])
      invariant rows == LayoutRows(cells[..i], year, now, dateOf)
    {
      assert cells[..i + 1][..i] == cells[..i];
      LayoutRowsStep(cells, i, year, now, dateOf);
      var row := cells[i];
      if row.date != "" {
        currentDate := row.date;
      }
      if row.title != "" {
        var eventDate := RowDate(currentDate, row.time, year, now, dateOf);
        if eventDate.Some? {
          rows := rows + [LayoutFields(row, eventDate.value)];
        }
      }
      i := i + 1;
    }
    assert cells[..i] == cells;
  }

  // ---------------------------------------------------------------------------
  // The crawl

  datatype CrawlError = BotProtection

  /** The rows left by the structured stage: none without a capture or a parse. */
  function StructuredStage(html: string, parseDays: string -> Option<seq<DayEntry>>): (rows: seq<CalendarRow>)
    ensures rows != [] ==>
      && DaysBlock.DaysCapture(html).Some?
      && parseDays(DaysBlock.DaysCapture(html).value).Some?
      && rows == StructuredOutcome(parseDays(DaysBlock.DaysCapture(html).value).value).rows
    ensures DaysBlock.DaysCapture(html).Some? && parseDays(DaysBlock.DaysCapture(html).value).Some? ==>
      rows == StructuredOutcome(parseDays(DaysBlock.DaysCapture(html).value).value).rows
  {
    match DaysBlock.DaysCapture(html)
    case None => []
    case Some(block) =>
      match parseDays(block)
      case None => []
      case Some(days) => StructuredOutcome(days).rows
  }

  /** The rows `crawl()` returns when the page was not blocked. */
  function CrawlRows(html: string, parseDays: string -> Option<seq<DayEntry>>, cells: seq<LayoutCells>,
                     year: nat, now: int, dateOf: string -> Option<int>): (rows: seq<CalendarRow>)
    ensures rows == StructuredStage(html, parseDays) || rows == LayoutRows(cells, year, now, dateOf)
    ensures StructuredStage(html, parseDays) != [] ==> rows == StructuredStage(html, parseDays)
    ensures rows == [] <==> StructuredStage(html, parseDays) == [] && LayoutRows(cells, year, now, dateOf) == []
  {
    var structured := StructuredStage(html, parseDays);
    if structured == [] then LayoutRows(cells, year, now, dateOf) else structured
  }

  /**
   * Lines 62-153 of `crawl()` after the page is loaded: `status` is the navigation
   * response's status (None when there is no response), `html` the page content.
   */
  method Crawl(status: Option<int>, html: string, parseDays: string -> Option<seq<DayEntry>>,
               cells: seq<LayoutCells>, year: nat, now: int, dateOf: string -> Option<int>)
    returns (r: Result<seq<CalendarRow>, CrawlError>)
    ensures r.Failure? <==> status == Some(BotProtectionStatus)
    ensures r.Success? ==> r.value == CrawlRows(html, parseDays, cells, year, now, dateOf)
  {
    if status == Some(BotProtectionStatus) {
      return Failure(BotProtection);
    }
    var rows: seq<CalendarRow> := [];
    var daysMatch := DaysBlock.DaysCapture(html);
    if daysMatch.Some? {
      var parsed := parseDays(daysMatch.value);
      if parsed.Some? {
        rows := ExtractStructured(parsed.value);
      }
    }
    if |rows| == 0 {
      rows := ExtractLayout(cells, year, now, dateOf);
    }
    return Success(rows);
  }

  /**
   * When the fallback runs: without a match, on a parse error, and on a well-formed
   * block without events; records pushed before an exception suppress it.
   */
  lemma FallbackTrigger(html: string, parseDays: string -> Option<seq<DayEntry>>, cells: seq<LayoutCells>,
                        year: nat, now: int, dateOf: string -> Option<int>)
    ensures var crawled, layout := CrawlRows(html, parseDays, cells, year, now, dateOf), LayoutRows(cells, year, now, dateOf);
      && (DaysBlock.DaysCapture(html).None? ==> crawled == layout)
      && (DaysBlock.DaysCapture(html).Some? && parseDays(DaysBlock.DaysCapture(html).value).None? ==> crawled == layout)
      && (DaysBlock.DaysCapture(html).Some? && parseDays(DaysBlock.DaysCapture(html).value).Some? ==>
            var days := parseDays(DaysBlock.DaysCapture(html).value).value;
            && (AllEvents(days) == [] ==> crawled == layout)
            && (StructuredOutcome(days).rows != [] ==> crawled == StructuredOutcome(days).rows)
            && (NoneThrows(days) && AllEvents(days) != [] ==> crawled == Records(AllEvents(days))))
  {
    var block := DaysBlock.DaysCapture(html);
    if block.Some? && parseDays(block.value).Some? {
      StructuredIsPrefix(parseDays(block.value).value);
    }
  }
}
