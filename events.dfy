/**
 * `EventsService`: the calendar-event table keyed by `(title, eventDate)`, the
 * sequential upserts of `saveEvents`, and the filtered read of `find` ordered by
 * `eventDate`.
 *
 * The table is a map from the unique key to the stored row. The store assigns each
 * inserted row an autoincrement id and its creation timestamp, which is a parameter.
 */
module Events {
  import opened Wrappers
  import opened Crawler

  /** The unique key `title_eventDate`. */
  datatype Key = Key(title: string, eventDate: int)

  function KeyOf(ev: CalendarRow): Key {
    Key(ev.title, ev.eventDate)
  }

  /** A stored row: the event's fields plus the id and `createdAt` the store assigns. */
  datatype StoredEvent = StoredEvent(id: nat, createdAt: int, event: CalendarRow)

  /** The table's rows and the next autoincrement id. */
  datatype Table = Table(records: map<Key, StoredEvent>, nextId: nat)

  /**
   * The identity invariant: each row is filed under its own `(title, eventDate)`, so
   * no two rows share that pair, and ids are distinct and below the next id.
   */
  ghost predicate WellFormed(t: Table) {
    && (forall k :: k in t.records ==> KeyOf(t.records[k].event) == k && t.records[k].id < t.nextId)
    && (forall k, k' :: k in t.records && k' in t.records && k != k' ==> t.records[k].id != t.records[k'].id)
  }

  /**
   * The `update` clause: exactly the seven listed fields take the new event's values.
   * The id, creation time and key stay, so an update under ev's own key leaves ev.
   */
  function ApplyUpdate(stored: StoredEvent, ev: CalendarRow): (s: StoredEvent)
    ensures s.id == stored.id && s.createdAt == stored.createdAt
    ensures KeyOf(s.event) == KeyOf(stored.event)
    ensures KeyOf(ev) == KeyOf(stored.event) ==> s.event == ev
  {
    stored.(event := stored.event.(
      eventTime := ev.eventTime,
      country := ev.country,
      impact := ev.impact,
      actual := ev.actual,
      forecast := ev.forecast,
      previous := ev.previous,
      sourceUrl := ev.sourceUrl))
  }

  /**
   * One `upsert` keyed by `title_eventDate`: afterwards the row under ev's key holds
   * ev; an existing row keeps its id and creation time, a new one gets the next id
   * and `now`; every other row is unchanged.
   */
  function Upserted(t: Table, ev: CalendarRow, now: int): (u: Table)
    requires WellFormed(t)
    ensures WellFormed(u)
    ensures u.records.Keys == t.records.Keys + {KeyOf(ev)}
    ensures u.records[KeyOf(ev)].event == ev
    ensures KeyOf(ev) in t.records ==>
      && u.records[KeyOf(ev)].id == t.records[KeyOf(ev)].id
      && u.records[KeyOf(ev)].createdAt == t.records[KeyOf(ev)].createdAt
      && u.nextId == t.nextId
    ensures KeyOf(ev) !in t.records ==>
      u.records[KeyOf(ev)] == StoredEvent(t.nextId, now, ev) && u.nextId == t.nextId + 1
    ensures forall k :: k in t.records && k != KeyOf(ev) ==> u.records[k] == t.records[k]
  {
    var k := KeyOf(ev);
    if k in t.records then
      Table(t.records[k := ApplyUpdate(t.records[k], ev)], t.nextId)
    else
      Table(t.records[k := StoredEvent(t.nextId, now, ev)], t.nextId + 1)
  }

  /** `saveEvents`: the upserts one after another, in list order. */
  function SaveAll(t: Table, evs: seq<CalendarRow>, now: int): (u: Table)
    requires WellFormed(t)
    ensures WellFormed(u)
  {
    if evs == [] then t
    else Upserted(SaveAll(t, evs[..|evs| - 1], now), evs[|evs| - 1], now)
  }

  /** The last event of the list filed under key k, if any. */
  function LastWith(evs: seq<CalendarRow>, k: Key): Option<CalendarRow> {
    if evs == [] then None
    else if KeyOf(evs[|evs| - 1]) == k then Some(evs[|evs| - 1])
    else LastWith(evs[..|evs| - 1], k)
  }

  lemma {:induction false} LastWithIsLast(evs: seq<CalendarRow>, k: Key)
    ensures LastWith(evs, k).None? <==> forall j :: 0 <= j < |evs| ==> KeyOf(evs[j]) != k
    ensures LastWith(evs, k).Some? ==>
      exists j :: 0 <= j < |evs| && evs[j] == LastWith(evs, k).value && KeyOf(evs[j]) == k
        && forall m :: j < m < |evs| ==> KeyOf(evs[m]) != k
  {
    if evs != [] {
      var init := evs[..|evs| - 1];
      LastWithIsLast(init, k);
      assert forall j :: 0 <= j < |init| ==> init[j] == evs[j];
      if KeyOf(evs[|evs| - 1]) != k && LastWith(init, k).Some? {
        var j :| 0 <= j < |init| && init[j] == LastWith(init, k).value && KeyOf(init[j]) == k
          && forall m :: j < m < |init| ==> KeyOf(init[m]) != k;
        assert forall m :: j < m < |evs| ==> KeyOf(evs[m]) != k;
      }
    }
  }

  /**
   * After saving, the table holds a row for every key it held before and every key of
   * the list, and no other.
   */
  lemma {:induction false} SaveAllKeys(t: Table, evs: seq<CalendarRow>, now: int)
    requires WellFormed(t)
    ensures forall k :: k in SaveAll(t, evs, now).records <==> k in t.records || LastWith(evs, k).Some?
  {
    if evs != [] {
      SaveAllKeys(t, evs[..|evs| - 1], now);
    }
  }

  /** A key present in the list ends up holding the last event of the list with that key. */
  lemma {:induction false} SaveAllLastWins(t: Table, evs: seq<CalendarRow>, now: int, k: Key)
    requires WellFormed(t)
    requires LastWith(evs, k).Some?
    ensures k in SaveAll(t, evs, now).records
    ensures SaveAll(t, evs, now).records[k].event == LastWith(evs, k).value
  {
    var init := evs[..|evs| - 1];
    if KeyOf(evs[|evs| - 1]) != k {
      SaveAllLastWins(t, init, now, k);
    }
  }

  /** A row that existed before keeps its id, creation time and identity. */
  lemma {:induction false} SaveAllKeepsIdentity(t: Table, evs: seq<CalendarRow>, now: int, k: Key)
    requires WellFormed(t)
    requires k in t.records
    ensures k in SaveAll(t, evs, now).records
    ensures var before, after := t.records[k], SaveAll(t, evs, now).records[k];
      && after.id == before.id
      && after.createdAt == before.createdAt
      && KeyOf(after.event) == KeyOf(before.event)
  {
    if evs != [] {
      SaveAllKeepsIdentity(t, evs[..|evs| - 1], now, k);
    }
  }

  /** A row whose key is not in the list is left as it was. */
  lemma {:induction false} SaveAllUntouched(t: Table, evs: seq<CalendarRow>, now: int, k: Key)
    requires WellFormed(t)
    requires k in t.records && LastWith(evs, k).None?
    ensures k in SaveAll(t, evs, now).records && SaveAll(t, evs, now).records[k] == t.records[k]
  {
    if evs != [] {
      SaveAllUntouched(t, evs[..|evs| - 1], now, k);
    }
  }

  /** Saving a list whose keys are all present already creates nothing. */
  lemma {:induction false} SaveAllNoInsert(t: Table, evs: seq<CalendarRow>, now: int)
    requires WellFormed(t)
    requires forall j :: 0 <= j < |evs| ==> KeyOf(evs[j]) in t.records
    ensures SaveAll(t, evs, now).nextId == t.nextId
    ensures SaveAll(t, evs, now).records.Keys == t.records.Keys
  {
    if evs != [] {
      SaveAllNoInsert(t, evs[..|evs| - 1], now);
    }
  }

  /** A row present after the first save is unchanged by saving the same list again. */
  lemma SecondSaveKeepsRow(t: Table, evs: seq<CalendarRow>, now1: int, now2: int, k: Key)
    requires WellFormed(t)
    requires k in SaveAll(t, evs, now1).records
    ensures k in SaveAll(SaveAll(t, evs, now1), evs, now2).records
    ensures SaveAll(SaveAll(t, evs, now1), evs, now2).records[k] == SaveAll(t, evs, now1).records[k]
  {
    var once := SaveAll(t, evs, now1);
    if LastWith(evs, k).Some? {
      SaveAllLastWins(t, evs, now1, k);
      SaveAllLastWins(once, evs, now2, k);
      SaveAllKeepsIdentity(once, evs, now2, k);
    } else {
      SaveAllUntouched(once, evs, now2, k);
    }
  }

  /** Two tables with the same keys, the same row under each key and the same next id are equal. */
  lemma SameRowsSameTable(a: Table, b: Table)
    requires a.records.Keys == b.records.Keys && a.nextId == b.nextId
    requires forall k :: k in b.records ==> a.records[k] == b.records[k]
    ensures a == b
  {
    assert a.records == b.records;
  }

  /** Saving the same list a second time leaves the table as the first save left it. */
  lemma SaveAllIdempotent(t: Table, evs: seq<CalendarRow>, now1: int, now2: int)
    requires WellFormed(t)
    ensures SaveAll(SaveAll(t, evs, now1), evs, now2) == SaveAll(t, evs, now1)
  {
    var once := SaveAll(t, evs, now1);
    var twice := SaveAll(once, evs, now2);
    SaveAllKeys(t, evs, now1);
    forall j | 0 <= j < |evs| ensures KeyOf(evs[j]) in once.records {
      LastWithIsLast(evs, KeyOf(evs[j]));
    }
    SaveAllNoInsert(once, evs, now2);
    forall k | k in once.records ensures k in twice.records && twice.records[k] == once.records[k] {
      SecondSaveKeepsRow(t, evs, now1, now2, k);
    }
    SameRowsSameTable(twice, once);
  }

  /** Two events with the same key in one list give one row, holding the later event. */
  lemma LaterDuplicateWins(t: Table, first: CalendarRow, second: CalendarRow, now: int)
    requires WellFormed(t)
    requires KeyOf(first) == KeyOf(second)
    ensures var u := SaveAll(t, [first, second], now);
      && u.records.Keys == t.records.Keys + {KeyOf(first)}
      && u.records[KeyOf(first)].event == second
  {
    var evs, key := [first, second], KeyOf(first);
    assert LastWith(evs, key) == Some(second);
    SaveAllLastWins(t, evs, now, key);
    SaveAllKeys(t, evs, now);
    forall k ensures LastWith(evs, k).Some? <==> k == key {
      LastWithIsLast(evs, k);
    }
  }

  // ---------------------------------------------------------------------------
  // find

  /** The query parameters of `find`; each may be absent. */
  datatype EventQuery = EventQuery(date: Option<string>, country: Option<string>, impact: Option<string>)

  datatype FindError = InvalidDate

  /** The `where` object: the value each field must equal, or None for no constraint. */
  datatype Where = Where(eventDate: Option<int>, country: Option<string>, impact: Option<string>)

  /**
   * Lines 33-37: `query.date ? new Date(query.date) : undefined` and
   * `x || undefined`; a date that does not parse is rejected by the store.
   */
  function WhereOf(q: EventQuery, dateOf: string -> Option<int>): (r: Result<Where, FindError>)
    ensures r.Failure? <==> !Falsy(q.date) && dateOf(q.date.value).None?
    ensures r.Success? ==> (r.value.eventDate.None? <==> Falsy(q.date))
    ensures r.Success? && !Falsy(q.date) ==> r.value.eventDate == dateOf(q.date.value)
    ensures r.Success? ==> (r.value.country.None? <==> Falsy(q.country)) && (r.value.country.Some? ==> r.value.country == q.country)
    ensures r.Success? ==> (r.value.impact.None? <==> Falsy(q.impact)) && (r.value.impact.Some? ==> r.value.impact == q.impact)
  {
    var country := OrNull(q.country);
    var impact := OrNull(q.impact);
    if Falsy(q.date) then Success(Where(None, country, impact))
    else
      match dateOf(q.date.value)
      case None => Failure(InvalidDate)
      case Some(d) => Success(Where(Some(d), country, impact))
  }

  /** A row satisfies every constraint that is present. */
  predicate Satisfies(x: StoredEvent, w: Where) {
    && (w.eventDate.None? || x.event.eventDate == w.eventDate.value)
    && (w.country.None? || x.event.country == w.country)
    && (w.impact.None? || x.event.impact == w.impact)
  }

  /**
   * What a query means, in terms of its parameters: an absent or empty `country` or
   * `impact` constrains nothing, a given one must equal the row's value, and a given
   * date must equal `eventDate` exactly.
   */
  lemma QueryMeaning(q: EventQuery, dateOf: string -> Option<int>, x: StoredEvent)
    requires WhereOf(q, dateOf).Success?
    ensures Satisfies(x, WhereOf(q, dateOf).value) <==>
      && (Falsy(q.date) || Some(x.event.eventDate) == dateOf(q.date.value))
      && (Falsy(q.country) || x.event.country == q.country)
      && (Falsy(q.impact) || x.event.impact == q.impact)
  {
  }

  /** Every row the query selects. */
  ghost function Selected(records: map<Key, StoredEvent>, w: Where): set<StoredEvent> {
    set x | x in records.Values && Satisfies(x, w)
  }

  predicate SortedByDate(s: seq<StoredEvent>) {
    forall i, j :: 0 <= i < j < |s| ==> s[i].event.eventDate <= s[j].event.eventDate
  }

  /** A row no later than the first of sorted rows can go in front of them. */
  lemma SortedCons(h: StoredEvent, rest: seq<StoredEvent>)
    requires SortedByDate(rest)
    requires rest == [] || h.event.eventDate <= rest[0].event.eventDate
    ensures SortedByDate([h] + rest)
  {
    var s := [h] + rest;
    forall i, j | 0 <= i < j < |s| ensures s[i].event.eventDate <= s[j].event.eventDate {
      if i == 0 && j > 1 {
        assert s[j] == rest[j - 1];
      }
    }
  }

  /** `orderBy: { eventDate: 'asc' }`, one row at a time: x placed among sorted rows. */
  function InsertByDate(s: seq<StoredEvent>, x: StoredEvent): (r: seq<StoredEvent>)
    requires SortedByDate(s)
    ensures SortedByDate(r)
    ensures multiset(r) == multiset(s) + multiset{x}
    ensures r[0] == x || r[0] == s[0]
  {
    if s == [] || x.event.eventDate <= s[0].event.eventDate then [x] + s
    else
      var rest := InsertByDate(s[1..], x);
      assert s == [s[0]] + s[1..];
      assert s[0].event.eventDate <= rest[0].event.eventDate;
      SortedCons(s[0], rest);
      [s[0]] + rest
  }

  /** The selected rows whose keys are not in `pending`. */
  ghost function SelectedOutside(records: map<Key, StoredEvent>, w: Where, pending: set<Key>): set<StoredEvent> {
    set x | x in records.Values && Satisfies(x, w) && KeyOf(x.event) !in pending
  }

  /** Taking key k off the pending keys adds its row to the selection if it satisfies the query. */
  lemma SelectedStep(t: Table, w: Where, pending: set<Key>, k: Key)
    requires WellFormed(t) && k in pending && k in t.records
    ensures var x := t.records[k];
      multiset(SelectedOutside(t.records, w, pending - {k}))
        == multiset(SelectedOutside(t.records, w, pending)) + (if Satisfies(x, w) then multiset{x} else multiset{})
  {
    var x := t.records[k];
    var before := SelectedOutside(t.records, w, pending);
    var after := SelectedOutside(t.records, w, pending - {k});
    forall y | y in after ensures y in before || y == x {
      var ky :| ky in t.records && t.records[ky] == y;
    }
    assert x !in before;
    if Satisfies(x, w) {
      assert after == before + {x};
    } else {
      assert after == before;
    }
  }

  /** The table as a mutable object, as the `prisma.calendarEvent` delegate sees it. */
  class EventStore {
    var records: map<Key, StoredEvent>
    var nextId: nat

    function Snapshot(): Table
      reads this
    {
      Table(records, nextId)
    }

    ghost predicate Valid()
      reads this
    {
      WellFormed(Snapshot())
    }

    /** An empty table; autoincrement ids start at 1. */
    constructor ()
      ensures Valid() && Snapshot() == Table(map[], 1)
    {
      records := map[];
      nextId := 1;
    }

    /** One `prisma.calendarEvent.upsert` call (lines 10-27). */
    method Upsert(ev: CalendarRow, now: int)
      requires Valid()
      modifies this
      ensures Valid()
      ensures Snapshot() == Upserted(old(Snapshot()), ev, now)
    {
      var key := KeyOf(ev);
      if key in records {
        records := records[key := ApplyUpdate(records[key], ev)];
      } else {
        records := records[key := StoredEvent(nextId, now, ev)];
        nextId := nextId + 1;
      }
    }

    /** `saveEvents`: one awaited upsert per event, in list order (lines 8-29). */
    method SaveEvents(evs: seq<CalendarRow>, now: int)
      requires Valid()
      modifies this
      ensures Valid()
      ensures Snapshot() == SaveAll(old(Snapshot()), evs, now)
    {
      var i := 0;
      while i < |evs|
        invariant i <= |evs|
        invariant Valid()
        invariant Snapshot() == SaveAll(old(Snapshot()), evs[..i], now)
      {
        assert evs[..i + 1][..i] == evs[..i];
        Upsert(evs[i], now);
        i := i + 1;
      }
      assert evs[..i] == evs;
    }

    /**
     * `find` (lines 31-40): every stored row satisfying the query, each once, in
     * non-decreasing `eventDate` order; a date that is not a valid date is an error.
     */
    method Find(query: EventQuery, dateOf: string -> Option<int>) returns (r: Result<seq<StoredEvent>, FindError>)
      requires Valid()
      ensures r.Failure? <==> WhereOf(query, dateOf).Failure?
      ensures r.Success? ==> SortedByDate(r.value)
      ensures r.Success? ==> multiset(r.value) == multiset(Selected(records, WhereOf(query, dateOf).value))
    {
      var where := WhereOf(query, dateOf);
      if where.Failure? {
        return Failure(where.error);
      }
      var w := where.value;
      var found: seq<StoredEvent> := [];
      var pending := records.Keys;
      while pending != {}
        invariant pending <= records.Keys
        invariant SortedByDate(found)
        invariant multiset(found) == multiset(SelectedOutside(records, w, pending))
        decreases pending
      {
        var k :| k in pending;
        var x := records[k];
        SelectedStep(Snapshot(), w, pending, k);
        if Satisfies(x, w) {
          found := InsertByDate(found, x);
        }
        pending := pending - {k};
      }
      assert SelectedOutside(records, w, {}) == Selected(records, w);
      return Success(found);
    }
  }
}
