/**
 * The event reminders of components/FamilyEvents.tsx: the list of family
 * events the screen holds, the form that creates them, deleting and marking
 * as wished, and the list of upcoming events with their reminder flags.
 */
module FamilyEvents {
  import opened Wrappers
  import opened Text
  import opened Seqs
  import opened Calendar
  import opened EventDates
  import Contacts

  datatype EventType = Birthday | Anniversary | Wedding | Graduation | Custom
  {
    /** The label EVENT_TYPES gives the type. */
    function Label(): string {
      match this
      case Birthday => "Birthday"
      case Anniversary => "Anniversary"
      case Wedding => "Wedding"
      case Graduation => "Graduation"
      case Custom => "Custom Event"
    }
  }

  datatype FamilyEvent = FamilyEvent(
    id: string,
    contactId: string,
    contactName: string,
    eventType: EventType,
    title: string,
    date: CalendarDate,
    isRecurring: bool,
    reminderDays: seq<int>,
    notes: Option<string>,
    lastWished: Option<Timestamp>,
    isActive: bool)

  // ---------------------------------------------------------------------
  // The event form

  /** `${selectedContact.name}`: a present name as it is, an absent name printed as "undefined". */
  function TemplateName(c: Contacts.Contact): (s: string)
    ensures c.name.Some? ==> s == c.name.value
    ensures s == "undefined" <==> c.name.None? || c.name == Some("undefined")
  {
    if c.name.Some? then c.name.value else "undefined"
  }

  /**
   * The title `updateEventTitle` fills in: empty for a custom event, else
   * "<name>'s <type label>", which always passes the form's title check.
   */
  function EventTitle(c: Contacts.Contact, t: EventType): (title: string)
    ensures title == [] <==> t == Custom
    ensures t != Custom ==> !AllWhitespace(title)
    ensures t != Custom ==> |title| == |TemplateName(c)| + 3 + |t.Label()|
    ensures t != Custom ==> title[..|TemplateName(c)|] == TemplateName(c)
    ensures t != Custom ==> title[|title| - |t.Label()| - 3..] == "'s " + t.Label()
  {
    if t == Custom then ""
    else
      var title := TemplateName(c) + "'s " + t.Label();
      assert title[|title| - 1] == t.Label()[|t.Label()| - 1];
      title
  }

  /** Why `createEvent` stops, or the contact and date it goes on with. */
  datatype FormCheck = MissingContact | MissingTitle | InvalidDate | Ready(contact: Contacts.Contact, date: CalendarDate)

  /**
   * `createEvent`'s checks in order: a contact must be selected, the trimmed
   * title must be non-empty and the date text must parse.
   */
  function CheckForm(selected: Option<Contacts.Contact>, title: string, dateString: string, currentYear: int): (c: FormCheck)
    ensures c == MissingContact <==> selected.None?
    ensures c == MissingTitle <==> selected.Some? && AllWhitespace(title)
    ensures c == InvalidDate <==>
              selected.Some? && !AllWhitespace(title) && ParseDateString(dateString, currentYear).None?
    ensures c.Ready? ==>
              selected == Some(c.contact) && ParseDateString(dateString, currentYear) == Some(c.date)
              && InYearRange(c.date)
  {
    if selected.None? then MissingContact
    else if Trim(title) == [] then MissingTitle
    else match ParseDateString(dateString, currentYear)
      case None => InvalidDate
      case Some(d) => Ready(selected.value, d)
  }

  /** The event `createEvent` builds from the form once its checks pass. */
  function NewEvent(id: string, contact: Contacts.Contact, eventType: EventType, title: string,
                    date: CalendarDate, isRecurring: bool, reminder: int, notes: string): (e: FamilyEvent)
    ensures e.id == id && e.contactId == contact.id && e.eventType == eventType
    ensures e.date == date && e.isRecurring == isRecurring
    ensures e.contactName == if Contacts.NameOrEmpty(contact) == "" then "Unknown" else contact.name.value
    ensures e.title == Trim(title)
    ensures e.notes.None? <==> AllWhitespace(notes)
    ensures e.notes.Some? ==> e.notes.value == Trim(notes) && e.notes.value != []
    ensures e.reminderDays == [reminder] && e.lastWished.None? && e.isActive
  {
    var name := Contacts.NameOrEmpty(contact);
    var trimmedNotes := Trim(notes);
    FamilyEvent(
      id, contact.id, if name == "" then "Unknown" else name, eventType, Trim(title), date,
      isRecurring, [reminder], if trimmedNotes == [] then None else Some(trimmedNotes), None, true)
  }

  // ---------------------------------------------------------------------
  // Deleting and marking as wished

  function HasOtherId(eventId: string): FamilyEvent -> bool {
    (e: FamilyEvent) => e.id != eventId
  }

  /**
   * The list after the confirmed delete of `eventId`: the events with another
   * id, all of them, in their order, and none with that id.
   */
  function WithoutEvent(events: seq<FamilyEvent>, eventId: string): (r: seq<FamilyEvent>)
    ensures IsSubsequence(r, events)
    ensures forall i :: 0 <= i < |r| ==> r[i].id != eventId
    ensures forall i :: 0 <= i < |events| && events[i].id != eventId ==> events[i] in r
    ensures |r| == Count(HasOtherId(eventId), events)
  {
    Filter(HasOtherId(eventId), events)
  }

  /** Deleting an id that no event has leaves the list as it was. */
  lemma {:induction false} DeleteAbsentId(events: seq<FamilyEvent>, eventId: string)
    requires forall i :: 0 <= i < |events| ==> events[i].id != eventId
    ensures WithoutEvent(events, eventId) == events
  {
    if events != [] {
      DeleteAbsentId(events[1..], eventId);
      assert HasOtherId(eventId)(events[0]);
      assert [events[0]] + events[1..] == events;
    }
  }

  /** Deleting the same id twice is deleting it once. */
  lemma DeleteIdempotent(events: seq<FamilyEvent>, eventId: string)
    ensures WithoutEvent(WithoutEvent(events, eventId), eventId) == WithoutEvent(events, eventId)
  {
    DeleteAbsentId(WithoutEvent(events, eventId), eventId);
  }

  /**
   * The list after `markAsWished(eventId)` at moment `now`: same length, and
   * only the `lastWished` field of the events with that id changes.
   */
  function MarkedWished(events: seq<FamilyEvent>, eventId: string, now: Timestamp): (r: seq<FamilyEvent>)
    ensures |r| == |events|
    ensures forall i :: 0 <= i < |r| ==> r[i] == events[i].(lastWished := r[i].lastWished)
    ensures forall i :: 0 <= i < |r| ==>
              r[i].lastWished == if events[i].id == eventId then Some(now) else events[i].lastWished
  {
    seq(|events|, i requires 0 <= i < |events| =>
      if events[i].id == eventId then events[i].(lastWished := Some(now)) else events[i])
  }

  // ---------------------------------------------------------------------
  // Upcoming events

  /** An active event annotated with its next occurrence (a day number), the days until it, and whether a reminder is due. */
  datatype UpcomingEvent = UpcomingEvent(event: FamilyEvent, nextDate: int, daysUntil: int, isDue: bool)

  /** `nextDate` after `setFullYear(currentYear)`: the stored date moved to this year. */
  function ThisYearDate(e: FamilyEvent, now: Timestamp): CalendarDate {
    MovedToYear(e.date, now.date.year)
  }

  /**
   * `nextDate` after the second `setFullYear(currentYear + 1)`, which moves
   * the already-moved date: a stored 29 February that became 1 March this
   * year stays 1 March next year.
   */
  function NextYearDate(e: FamilyEvent, now: Timestamp): CalendarDate {
    MovedToYear(ThisYearDate(e, now), now.date.year + 1)
  }

  /**
   * The test `nextDate < now`: midnight of this year's date is before the
   * current moment, either on an earlier day or on today after midnight.
   */
  predicate MovedOnAsWritten(e: FamilyEvent, now: Timestamp) {
    DayNumber(ThisYearDate(e, now)) < DayNumber(now.date)
    || (DayNumber(ThisYearDate(e, now)) == DayNumber(now.date) && now.millisOfDay > 0)
  }

  /**
   * The next occurrence as the source computes it: a recurring event is moved
   * to the current year, and to the next one when that moment (midnight of
   * the date) is before `now`, time of day included. So after midnight a
   * recurring event whose date is today goes to next year.
   */
  function NextOccurrenceAsWritten(e: FamilyEvent, now: Timestamp): (next: int)
    ensures !e.isRecurring ==> next == DayNumber(e.date)
    ensures e.isRecurring ==>
              next == DayNumber(ThisYearDate(e, now)) || next == DayNumber(NextYearDate(e, now))
    ensures e.isRecurring && MovedOnAsWritten(e, now) ==> next == DayNumber(NextYearDate(e, now))
    ensures e.isRecurring && !MovedOnAsWritten(e, now) ==> next == DayNumber(ThisYearDate(e, now))
  {
    var today := DayNumber(now.date);
    if !e.isRecurring then DayNumber(e.date)
    else
      var thisYear := DayNumber(ThisYearDate(e, now));
      if thisYear < today || (thisYear == today && now.millisOfDay > 0)
      then DayNumber(NextYearDate(e, now))
      else thisYear
  }

  /**
   * The next occurrence as evidently intended: a recurring event whose date
   * this year is today stays today; it moves to next year only when that
   * date is an earlier day.
   */
  function NextOccurrence(e: FamilyEvent, now: Timestamp): (next: int)
    ensures !e.isRecurring ==> next == DayNumber(e.date)
    ensures e.isRecurring ==>
              next == DayNumber(ThisYearDate(e, now)) || next == DayNumber(NextYearDate(e, now))
    ensures e.isRecurring && DayNumber(ThisYearDate(e, now)) >= DayNumber(now.date) ==>
              next == DayNumber(ThisYearDate(e, now))
    ensures e.isRecurring && DayNumber(ThisYearDate(e, now)) < DayNumber(now.date) ==>
              next == DayNumber(NextYearDate(e, now))
  {
    var today := DayNumber(now.date);
    if !e.isRecurring then DayNumber(e.date)
    else
      var thisYear := DayNumber(ThisYearDate(e, now));
      if thisYear < today then DayNumber(NextYearDate(e, now)) else thisYear
  }

  /** Which next-occurrence rule annotates the list: the code's, or the corrected one. */
  datatype OccurrenceRule = AsWritten | Corrected

  function NextDay(rule: OccurrenceRule, e: FamilyEvent, now: Timestamp): int {
    match rule
    case AsWritten => NextOccurrenceAsWritten(e, now)
    case Corrected => NextOccurrence(e, now)
  }

  /**
   * One element of the map in `getUpcomingEvents`. `Math.ceil` of the time
   * from `now` to the midnight that starts day `next` is `next - today`,
   * because `now` is less than one day past today's midnight.
   */
  function Annotate(rule: OccurrenceRule, e: FamilyEvent, now: Timestamp): (u: UpcomingEvent)
    ensures u.event == e && u.nextDate == NextDay(rule, e, now)
    ensures u.daysUntil == u.nextDate - DayNumber(now.date)
    ensures u.isDue <==> u.daysUntil in e.reminderDays
  {
    var next := NextDay(rule, e, now);
    var daysUntil := next - DayNumber(now.date);
    UpcomingEvent(e, next, daysUntil, daysUntil in e.reminderDays)
  }

  function AnnotateAll(rule: OccurrenceRule, events: seq<FamilyEvent>, now: Timestamp): (r: seq<UpcomingEvent>)
    ensures |r| == |events| && forall i :: 0 <= i < |r| ==> r[i] == Annotate(rule, events[i], now)
  {
    seq(|events|, i requires 0 <= i < |events| => Annotate(rule, events[i], now))
  }

  ghost predicate SortedByDays(s: seq<UpcomingEvent>) {
    forall i, j :: 0 <= i < j < |s| ==> s[i].daysUntil <= s[j].daysUntil
  }

  /** Inserts `u` into a sorted list, before the first element that is not earlier. */
  function InsertByDays(u: UpcomingEvent, s: seq<UpcomingEvent>): (r: seq<UpcomingEvent>)
    requires SortedByDays(s)
    ensures SortedByDays(r)
    ensures multiset(r) == multiset(s) + multiset{u}
  {
    if s == [] then [u]
    else if u.daysUntil <= s[0].daysUntil then [u] + s
    else
      var rest := InsertByDays(u, s[1..]);
      assert s == [s[0]] + s[1..];
      BoundSurvivesInsert(s[0].daysUntil, u, s[1..], rest);
      SortedCons(s[0], rest);
      [s[0]] + rest
  }

  lemma BoundSurvivesInsert(b: int, u: UpcomingEvent, s: seq<UpcomingEvent>, r: seq<UpcomingEvent>)
    requires multiset(r) == multiset(s) + multiset{u}
    requires b <= u.daysUntil && forall i :: 0 <= i < |s| ==> b <= s[i].daysUntil
    ensures forall i :: 0 <= i < |r| ==> b <= r[i].daysUntil
  {
    forall i | 0 <= i < |r| ensures b <= r[i].daysUntil {
      assert r[i] in multiset(r);
      if r[i] != u {
        assert r[i] in multiset(s);
      }
    }
  }

  lemma SortedCons(x: UpcomingEvent, s: seq<UpcomingEvent>)
    requires SortedByDays(s) && forall i :: 0 <= i < |s| ==> x.daysUntil <= s[i].daysUntil
    ensures SortedByDays([x] + s)
  {
    forall i, j | 0 <= i < j < |s| + 1 ensures ([x] + s)[i].daysUntil <= ([x] + s)[j].daysUntil {
      if i > 0 {
        assert ([x] + s)[i] == s[i - 1];
      }
      assert ([x] + s)[j] == s[j - 1];
    }
  }

  /** `sort((a, b) => a.daysUntil - b.daysUntil)`: ascending by days, a permutation of its input. */
  function SortByDays(s: seq<UpcomingEvent>): (r: seq<UpcomingEvent>)
    ensures SortedByDays(r)
    ensures multiset(r) == multiset(s)
  {
    if s == [] then []
    else
      assert s == [s[0]] + s[1..];
      InsertByDays(s[0], SortByDays(s[1..]))
  }

  function IsActiveEvent(): FamilyEvent -> bool {
    (e: FamilyEvent) => e.isActive
  }

  /**
   * `getUpcomingEvents` under a next-occurrence rule: one entry per active
   * event, annotated, sorted by days until the next occurrence.
   */
  function GetUpcomingEvents(rule: OccurrenceRule, events: seq<FamilyEvent>, now: Timestamp): (r: seq<UpcomingEvent>)
    ensures |r| == Count(IsActiveEvent(), events)
    ensures SortedByDays(r)
    ensures multiset(r) == multiset(AnnotateAll(rule, Filter(IsActiveEvent(), events), now))
  {
    var annotated := AnnotateAll(rule, Filter(IsActiveEvent(), events), now);
    var r := SortByDays(annotated);
    assert |r| == |multiset(r)| == |multiset(annotated)| == |annotated|;
    r
  }

  /**
   * Each entry is an active event of the list, annotated, flagged due exactly
   * when its reminder days hold its days until.
   */
  lemma UpcomingEntriesAreActive(rule: OccurrenceRule, events: seq<FamilyEvent>, now: Timestamp)
    ensures var r := GetUpcomingEvents(rule, events, now);
            forall i :: 0 <= i < |r| ==>
              r[i].event in events && r[i].event.isActive && r[i] == Annotate(rule, r[i].event, now)
              && r[i].daysUntil == r[i].nextDate - DayNumber(now.date)
              && (r[i].isDue <==> r[i].daysUntil in r[i].event.reminderDays)
  {
    var r := GetUpcomingEvents(rule, events, now);
    forall i | 0 <= i < |r|
      ensures r[i].event in events && r[i].event.isActive && r[i] == Annotate(rule, r[i].event, now)
              && r[i].daysUntil == r[i].nextDate - DayNumber(now.date)
              && (r[i].isDue <==> r[i].daysUntil in r[i].event.reminderDays)
    {
      UpcomingEntryIsActive(rule, events, now, r, i);
    }
  }

  lemma UpcomingEntryIsActive(rule: OccurrenceRule, events: seq<FamilyEvent>, now: Timestamp,
                              r: seq<UpcomingEvent>, i: nat)
    requires multiset(r) == multiset(AnnotateAll(rule, Filter(IsActiveEvent(), events), now)) && i < |r|
    ensures r[i].event in events && r[i].event.isActive && r[i] == Annotate(rule, r[i].event, now)
  {
    var active := Filter(IsActiveEvent(), events);
    var annotated := AnnotateAll(rule, active, now);
    assert r[i] in multiset(annotated);
    forall j | 0 <= j < |active| ensures active[j] in events && active[j].isActive {
      assert IsActiveEvent()(active[j]);
    }
    EntryOfAnnotated(rule, annotated, active, events, now, r[i]);
  }

  lemma EntryOfAnnotated(rule: OccurrenceRule, annotated: seq<UpcomingEvent>, active: seq<FamilyEvent>,
                         events: seq<FamilyEvent>, now: Timestamp, u: UpcomingEvent)
    requires |annotated| == |active|
    requires forall j :: 0 <= j < |annotated| ==> annotated[j] == Annotate(rule, active[j], now)
    requires forall j :: 0 <= j < |active| ==> active[j] in events && active[j].isActive
    requires u in multiset(annotated)
    ensures u.event in events && u.event.isActive && u == Annotate(rule, u.event, now)
  {
    var j :| 0 <= j < |annotated| && annotated[j] == u;
    assert u.event == active[j];
  }

  /** Every active event has an entry in the upcoming list. */
  lemma ActiveEventsAreUpcoming(rule: OccurrenceRule, events: seq<FamilyEvent>, now: Timestamp, i: nat)
    requires i < |events| && events[i].isActive
    ensures Annotate(rule, events[i], now) in GetUpcomingEvents(rule, events, now)
  {
    var active := Filter(IsActiveEvent(), events);
    var annotated := AnnotateAll(rule, active, now);
    assert IsActiveEvent()(events[i]);
    var j :| 0 <= j < |active| && active[j] == events[i];
    assert annotated[j] in multiset(GetUpcomingEvents(rule, events, now));
  }

  /**
   * A recurring event with an in-range date next occurs between today and
   * 366 days on, and today exactly when its date this year is today.
   */
  lemma NextOccurrenceWithinAYear(e: FamilyEvent, now: Timestamp)
    requires e.isRecurring && InYearRange(e.date) && InYearRange(now.date)
    ensures 0 <= NextOccurrence(e, now) - DayNumber(now.date) <= 366
    ensures NextOccurrence(e, now) == DayNumber(now.date) <==>
              DayNumber(ThisYearDate(e, now)) == DayNumber(now.date)
  {
    var thisYear := ThisYearDate(e, now);
    assert DayNumber(NextYearDate(e, now)) == DayNumber(thisYear.(year := thisYear.year + 1));
    if DayNumber(thisYear) < DayNumber(now.date) {
      assert NextOccurrence(e, now) == DayNumber(NextYearDate(e, now));
      LaterDateNextYear(thisYear, now.date);
    } else {
      assert NextOccurrence(e, now) == DayNumber(thisYear);
      LaterDateThisYear(thisYear, now.date);
    }
  }

  /**
   * As written, a recurring event with an in-range date also next occurs
   * between today and 366 days on, but today only when `now` is exactly
   * midnight of its date.
   */
  lemma AsWrittenWithinAYear(e: FamilyEvent, now: Timestamp)
    requires e.isRecurring && InYearRange(e.date) && InYearRange(now.date)
    ensures 0 <= NextOccurrenceAsWritten(e, now) - DayNumber(now.date) <= 366
    ensures NextOccurrenceAsWritten(e, now) == DayNumber(now.date) <==>
              DayNumber(ThisYearDate(e, now)) == DayNumber(now.date) && now.millisOfDay == 0
  {
    var thisYear := ThisYearDate(e, now);
    assert DayNumber(NextYearDate(e, now)) == DayNumber(thisYear.(year := thisYear.year + 1));
    var today := DayNumber(now.date);
    if DayNumber(thisYear) < today {
      assert NextOccurrenceAsWritten(e, now) == DayNumber(NextYearDate(e, now));
      LaterDateNextYear(thisYear, now.date);
    } else if DayNumber(thisYear) == today && now.millisOfDay > 0 {
      assert NextOccurrenceAsWritten(e, now) == DayNumber(NextYearDate(e, now));
      NextYearSameDate(thisYear);
    } else {
      assert NextOccurrenceAsWritten(e, now) == DayNumber(thisYear);
      LaterDateThisYear(thisYear, now.date);
    }
  }

  /** A date of this year on or after today is at most 365 days away. */
  lemma LaterDateThisYear(d: CalendarDate, today: CalendarDate)
    requires InYearRange(d) && InYearRange(today) && d.year == today.year
    ensures DayNumber(d) - DayNumber(today) < 366
  {
    YearLength(today.year);
  }

  /** A date of this year before today, moved to next year, lies after today and at most 366 days on. */
  lemma LaterDateNextYear(d: CalendarDate, today: CalendarDate)
    requires InYearRange(d) && InYearRange(today) && d.year == today.year
    requires DayNumber(d) < DayNumber(today)
    ensures 0 < DayNumber(d.(year := d.year + 1)) - DayNumber(today) <= 366
  {
    NextYearSameDate(d);
  }

  lemma NextDayWithinAYear(rule: OccurrenceRule, e: FamilyEvent, now: Timestamp)
    requires e.isRecurring && InYearRange(e.date) && InYearRange(now.date)
    ensures 0 <= NextDay(rule, e, now) - DayNumber(now.date) <= 366
  {
    match rule
    case AsWritten => AsWrittenWithinAYear(e, now);
    case Corrected => NextOccurrenceWithinAYear(e, now);
  }

  /**
   * With the event dates and today in range, every recurring entry of the
   * upcoming list, under either rule, is due between today and 366 days on.
   */
  lemma UpcomingWithinAYear(rule: OccurrenceRule, events: seq<FamilyEvent>, now: Timestamp)
    requires forall i :: 0 <= i < |events| ==> InYearRange(events[i].date)
    requires InYearRange(now.date)
    ensures var r := GetUpcomingEvents(rule, events, now);
            forall i :: 0 <= i < |r| && r[i].event.isRecurring ==> 0 <= r[i].daysUntil <= 366
  {
    var r := GetUpcomingEvents(rule, events, now);
    UpcomingEntriesAreActive(rule, events, now);
    forall i | 0 <= i < |r| && r[i].event.isRecurring ensures 0 <= r[i].daysUntil <= 366 {
      NextDayWithinAYear(rule, r[i].event, now);
    }
  }

  /**
   * As written, once `now` is past midnight a recurring event is never zero
   * days away, so the "Day of event" reminder (0 days) is never due for it.
   */
  lemma AsWrittenNeverDayOf(e: FamilyEvent, now: Timestamp)
    requires e.isRecurring && InYearRange(e.date) && InYearRange(now.date) && now.millisOfDay > 0
    ensures NextOccurrenceAsWritten(e, now) - DayNumber(now.date) != 0
  {
    AsWrittenWithinAYear(e, now);
  }

  /**
   * The same on the list the code shows: after midnight no recurring entry
   * is 0 days away, so none is due through a "Day of event" reminder alone.
   */
  lemma AsWrittenListNeverDayOf(events: seq<FamilyEvent>, now: Timestamp)
    requires forall i :: 0 <= i < |events| ==> InYearRange(events[i].date)
    requires InYearRange(now.date) && now.millisOfDay > 0
    ensures var r := GetUpcomingEvents(AsWritten, events, now);
            forall i :: 0 <= i < |r| && r[i].event.isRecurring ==>
              r[i].daysUntil != 0 && (r[i].event.reminderDays == [0] ==> !r[i].isDue)
  {
    var r := GetUpcomingEvents(AsWritten, events, now);
    UpcomingEntriesAreActive(AsWritten, events, now);
    forall i | 0 <= i < |r| && r[i].event.isRecurring
      ensures r[i].daysUntil != 0 && (r[i].event.reminderDays == [0] ==> !r[i].isDue)
    {
      AsWrittenNeverDayOf(r[i].event, now);
    }
  }

  /**
   * A birthday on 10 May with a day-of reminder, looked at at 09:00 on
   * 10 May 2025: as written it is 365 days away and not due; as intended it
   * is today and due.
   */
  lemma DayOfReminderExample()
    ensures var e := FamilyEvent("1", "c1", "Mom", Birthday, "Mom's Birthday", CalendarDate(1960, 5, 10),
                                 true, [0], None, None, true);
            var now := Timestamp(CalendarDate(2025, 5, 10), 9 * 60 * 60 * 1000);
            Annotate(AsWritten, e, now).daysUntil == 365 && !Annotate(AsWritten, e, now).isDue
            && Annotate(Corrected, e, now).daysUntil == 0 && Annotate(Corrected, e, now).isDue
  {
    assert DaysBeforeYear(2025) == 739617;
    assert DaysBeforeYear(2026) == 739982;
    assert DayNumber(CalendarDate(2025, 5, 10)) == 739617 + 120 + 9;
    assert DayNumber(CalendarDate(2026, 5, 10)) == 739982 + 120 + 9;
  }

  /**
   * A birthday stored on 29 February 2000, seen at 09:00 on 10 March 2027:
   * this year's date is 1 March 2027, already past, and moving that date on
   * gives 1 March 2028 (not 29 February 2028), 357 days away under both rules.
   */
  lemma LeapDayMovedTwiceExample()
    ensures var e := FamilyEvent("2", "c2", "Ann", Birthday, "Ann's Birthday", CalendarDate(2000, 2, 29),
                                 true, [0], None, None, true);
            var now := Timestamp(CalendarDate(2027, 3, 10), 9 * 60 * 60 * 1000);
            ThisYearDate(e, now) == CalendarDate(2027, 3, 1) && NextYearDate(e, now) == CalendarDate(2028, 3, 1)
            && Annotate(AsWritten, e, now).daysUntil == 357 && Annotate(Corrected, e, now).daysUntil == 357
  {
    assert !IsLeapYear(2027) && IsLeapYear(2028);
    assert DaysBeforeYear(2027) == 740347;
    assert DaysBeforeYear(2028) == 740712;
    assert DayNumber(CalendarDate(2027, 3, 1)) == 740347 + 59;
    assert DayNumber(CalendarDate(2027, 3, 10)) == 740347 + 59 + 9;
    assert DayNumber(CalendarDate(2028, 3, 1)) == 740712 + 60;
  }

  lemma AppendKeepsDates(events: seq<FamilyEvent>, e: FamilyEvent)
    requires forall i :: 0 <= i < |events| ==> InYearRange(events[i].date)
    requires InYearRange(e.date)
    ensures forall i :: 0 <= i < |events + [e]| ==> InYearRange((events + [e])[i].date)
  {
  }

  // ---------------------------------------------------------------------
  // The screen's state

  /** The events list and the create-event form the component keeps in React state. */
  class EventsScreen {
    var events: seq<FamilyEvent>
    var selectedContact: Option<Contacts.Contact>
    var selectedEventType: EventType
    var eventTitle: string
    var dateString: string
    var isRecurring: bool
    var selectedReminder: int
    var eventNotes: string
    var searchQuery: string

    /** Every stored event has a date the form could have produced. */
    ghost predicate Valid()
      reads this
    {
      forall i :: 0 <= i < |events| ==> InYearRange(events[i].date)
    }

    /** The form's initial values, which `resetForm` restores. */
    predicate FormIsReset()
      reads this
    {
      selectedContact.None? && selectedEventType == Birthday && eventTitle == ""
      && dateString == "" && isRecurring && selectedReminder == 1 && eventNotes == ""
      && searchQuery == ""
    }

    constructor ()
      ensures Valid() && events == [] && FormIsReset()
    {
      events := [];
      selectedContact := None;
      selectedEventType := Birthday;
      eventTitle := "";
      dateString := "";
      isRecurring := true;
      selectedReminder := 1;
      eventNotes := "";
      searchQuery := "";
    }

    /** `updateEventTitle`, run when the selected contact or event type changes. */
    method UpdateEventTitle()
      modifies this`eventTitle
      ensures selectedContact.None? ==> eventTitle == old(eventTitle)
      ensures selectedContact.Some? ==> eventTitle == EventTitle(selectedContact.value, selectedEventType)
    {
      if selectedContact.Some? {
        eventTitle := EventTitle(selectedContact.value, selectedEventType);
      }
    }

    /** `resetForm`: every form field back to its initial value; the events stay. */
    method ResetForm()
      modifies this
      ensures FormIsReset() && events == old(events)
    {
      selectedContact := None;
      selectedEventType := Birthday;
      eventTitle := "";
      dateString := "";
      isRecurring := true;
      selectedReminder := 1;
      eventNotes := "";
      searchQuery := "";
    }

    /**
     * `createEvent`, with `id` standing for `Date.now().toString()` and
     * `currentYear` for the year of the clock: when a check fails nothing
     * changes; otherwise exactly one new event is appended and the form is reset.
     */
    method CreateEvent(id: string, currentYear: int) returns (outcome: FormCheck)
      requires Valid()
      modifies this
      ensures Valid()
      ensures outcome == CheckForm(old(selectedContact), old(eventTitle), old(dateString), currentYear)
      ensures !outcome.Ready? ==> unchanged(this)
      ensures outcome.Ready? ==>
                events == old(events) + [NewEvent(id, outcome.contact, old(selectedEventType), old(eventTitle),
                                                  outcome.date, old(isRecurring), old(selectedReminder),
                                                  old(eventNotes))]
                && FormIsReset()
    {
      outcome := CheckForm(selectedContact, eventTitle, dateString, currentYear);
      if outcome.Ready? {
        var newEvent := NewEvent(id, outcome.contact, selectedEventType, eventTitle, outcome.date,
                                 isRecurring, selectedReminder, eventNotes);
        assert InYearRange(newEvent.date);
        AppendKeepsDates(events, newEvent);
        events := events + [newEvent];
        ResetForm();
      }
    }

    /** The confirmed `deleteEvent(eventId)`. */
    method DeleteEvent(eventId: string)
      requires Valid()
      modifies this`events
      ensures Valid()
      ensures events == WithoutEvent(old(events), eventId)
    {
      events := WithoutEvent(events, eventId);
    }

    /** `markAsWished(eventId)` at moment `now`. */
    method MarkAsWished(eventId: string, now: Timestamp)
      requires Valid()
      modifies this`events
      ensures Valid()
      ensures events == MarkedWished(old(events), eventId, now)
    {
      events := MarkedWished(events, eventId, now);
    }

    /**
     * `getUpcomingEvents` on the screen's events: `shown` is the list the
     * code computes, `intended` the list under the corrected rule. In both,
     * each recurring entry is due between today and 366 days on.
     */
    method UpcomingEvents(now: Timestamp) returns (shown: seq<UpcomingEvent>, intended: seq<UpcomingEvent>)
      requires Valid() && InYearRange(now.date)
      ensures shown == GetUpcomingEvents(AsWritten, events, now)
      ensures intended == GetUpcomingEvents(Corrected, events, now)
      ensures forall i :: 0 <= i < |shown| && shown[i].event.isRecurring ==> 0 <= shown[i].daysUntil <= 366
      ensures forall i :: 0 <= i < |intended| && intended[i].event.isRecurring ==> 0 <= intended[i].daysUntil <= 366
    {
      shown := GetUpcomingEvents(AsWritten, events, now);
      intended := GetUpcomingEvents(Corrected, events, now);
      UpcomingWithinAYear(AsWritten, events, now);
      UpcomingWithinAYear(Corrected, events, now);
    }
  }
}
