# FamilyLoop decision logic in Dafny

FamilyLoop is a mobile app that helps people keep in touch with their family.
This project models its three small pieces of decision logic and proves
properties about them:

- **Relationship classifier** (`FamilyLoop/utils/nameDetector.js`). A contact's
  display name is lower-cased and checked against an ordered lexicon of eleven
  relationship labels, each with its own substring patterns. The first label
  with a matching pattern wins, and `Contact` is the fallback. The label then
  decides the contact's group (`Family`, `Work`, `Friends` or `Contacts`).
  `autoGroupContacts` applies both steps to a whole list.
- **Event reminders** (the non-UI parts of
  `FamilyLoop/components/FamilyEvents.tsx`):
  - a second, simpler if-chain classifier, applied when device contacts are loaded;
  - the contact search box;
  - the date-field parser;
  - the create-event form with its checks;
  - delete and mark-as-wished on the event list;
  - the upcoming-events list with its "reminder due" flags.
- **Message generator** (`ai/message_generator.py`). A reach-out message is built
  from an opener, chosen by how many days have passed since the last contact, and
  a template, chosen by tone.

Modules:

| module | contents |
|---|---|
| `Wrappers` | `Option`, standing for `undefined` / `null` |
| `Text` | JavaScript's `toLowerCase` (ASCII), `includes` and `trim` |
| `Seqs` | `Array.prototype.filter`, `slice(0, n)`, element counts, subsequences |
| `PatternTable` | the first-match-wins rule over an ordered table of labels and patterns, shared by both classifiers |
| `Contacts` | the contact record |
| `NameDetector` | the lexicon, `detectRelationship` (a method with the source's nested loops), `determineGroup`, `autoGroupContacts` |
| `ContactSearch` | `detectBasicRelationship`, contact enrichment, the search filter |
| `Calendar` | dates as day numbers on the proleptic Gregorian calendar, and moments as a date plus milliseconds since midnight |
| `EventDates` | `parseDateString` |
| `FamilyEvents` | the event record, the form functions, `getUpcomingEvents`, and the class `EventsScreen` |
| `MessageGenerator` | `generate_message` |

`EventsScreen` holds the component's React state: the events list and the
form fields. Its methods stand for the handlers that replace that state:
`createEvent`, `resetForm`, the confirmed `deleteEvent`, `markAsWished` and
`updateEventTitle`. Each method's postcondition gives the whole new state in
terms of a pure function. The facts about those functions are proved as
lemmas.

External inputs become parameters:
- the clock (`new Date()`) is a `Timestamp`, or `currentYear` where only the year is read;
- the new event's id (`Date.now().toString()`) is a string parameter;
- the device contacts are a sequence.

### Where the model departs from the source, or what one might expect

- The lexicon's `Object.entries` order is the literal's insertion order
  (nameDetector.js lines 4-14). One might expect "Bro Manager" to be a
  Brother (from 'bro') or Work (from 'manager'). The code gives Mother: the
  Mother pattern 'ma' occurs inside "manager", and Mother is checked first. The model follows the code (`NameDetector.BroManagerIsMother`).
- In the same way, "Bob Smith Enterprises Spam" is a Father, because the Father
  pattern 'pa' occurs inside "spam" (`NameDetector.SpamIsFather`).
- The `NameDetector` class only sets its table in the constructor and never
  changes it. The table is therefore a module constant, and the methods
  become a method and pure functions.
- `updateEventTitle` builds the title with a template literal. A selected
  contact without a name therefore gets the title "undefined's Birthday".
  The model keeps this (`FamilyEvents.TemplateName`).
- `getUpcomingEvents` is modelled under two next-occurrence rules
  (`FamilyEvents.OccurrenceRule`): the rule as written
  (`FamilyEvents.NextOccurrenceAsWritten`), and the corrected rule described
  under "## Findings" (`FamilyEvents.NextOccurrence`). The same facts are
  proved under both rules. The screen's `UpcomingEvents` returns the list the
  code shows, and the corrected list beside it.
- `parseDateString` returns `new Date(year, month, day)`, which carries a day
  past the end of its month into the next month: 02/30/2023 is 2 March 2023.
  The model carries once, when the date is parsed (`Calendar.Carried`), and
  stores the resulting real date.
- `getUpcomingEvents` moves the stored date with `setFullYear` twice. The
  first call moves the stored date to this year; a stored 29 February in a
  common year becomes 1 March. The second call moves that already-moved
  date to next year and keeps its month and day, so 1 March stays 1 March
  (`Calendar.MovedToYear`, `FamilyEvents.ThisYearDate`,
  `FamilyEvents.NextYearDate`, `FamilyEvents.LeapDayMovedTwiceExample`).

## Model

| member | source | states |
|---|---|---|
| NameDetector.LexiconShape | FamilyLoop/utils/nameDetector.js:4-14 | no lexicon row carries the default label `Contact`, and no pattern is empty |
| NameDetector.DetectRelationship | FamilyLoop/utils/nameDetector.js:18-30 | the nested scan with early return gives the label of the first row, in lexicon order, that has a pattern occurring in the lower-cased name, and `Contact` when there is none |
| NameDetector.ContactIffNoPattern | FamilyLoop/utils/nameDetector.js:18-29 | the answer is `Contact` exactly when no pattern of any label is a substring of the lower-cased name |
| NameDetector.EmptyNameIsContact | FamilyLoop/utils/nameDetector.js:18-29 | the empty name is classified `Contact` |
| NameDetector.FirstLabelWins | FamilyLoop/utils/nameDetector.js:21-27 | row i's label is returned exactly when one of row i's patterns occurs in the name and no pattern of an earlier row does |
| NameDetector.NeverGrandfather | FamilyLoop/utils/nameDetector.js:4-27 | `Grandfather` is never returned, for any name |
| NameDetector.GrandfatherShadowed | FamilyLoop/utils/nameDetector.js:5-11 | a name holding a Grandfather pattern also holds a Father or Grandmother pattern ('pa', 'father', 'gram') |
| NameDetector.CaseInsensitive | FamilyLoop/utils/nameDetector.js:19 | a name and its lower-cased form get the same label and the same group |
| NameDetector.FamilyPatternMeansFamily | FamilyLoop/utils/nameDetector.js:4-14 | family rows come before Work and Friend, so a name holding any family pattern gets a family label and the Family group |
| NameDetector.MomIsFamily | FamilyLoop/utils/nameDetector.js:4 | "Mom" is a Mother, in the Family group |
| NameDetector.BroManagerIsMother | FamilyLoop/utils/nameDetector.js:4-13 | "Bro Manager" is a Mother: 'ma' matches ahead of 'bro' and 'manager' |
| NameDetector.SpamIsFather | FamilyLoop/utils/nameDetector.js:4-13 | "Bob Smith Enterprises Spam" is a Father: 'pa' occurs in "spam", and no Mother pattern occurs in the name |
| NameDetector.LabelRoundTrip | FamilyLoop/utils/nameDetector.js:35 | the stored relationship string reads back as the label it was made from |
| NameDetector.GroupOf | FamilyLoop/utils/nameDetector.js:43-53 | Family exactly for the nine family labels, Work exactly for Work, Friends exactly for Friend, otherwise Contacts |
| NameDetector.DetermineGroup | FamilyLoop/utils/nameDetector.js:40-54 | the group is Family, Work, Friends or Contacts exactly when the name's label is a family label, Work, Friend or `Contact` |
| NameDetector.AutoGroupContacts | FamilyLoop/utils/nameDetector.js:32-38 | same length and order; id, name and phone numbers kept; relationship and group set from `name` or '' |
| NameDetector.AutoGroupIdempotent | FamilyLoop/utils/nameDetector.js:32-38 | grouping an already grouped list changes nothing |
| NameDetector.GroupFollowsRelationship | FamilyLoop/utils/nameDetector.js:32-54 | after grouping, the stored group is the group of the label the stored relationship names |
| ContactSearch.DetectBasicRelationship | FamilyLoop/components/FamilyEvents.tsx:170-185 | the empty name gives `Contact`; Work and Friend are never returned |
| ContactSearch.BasicIsFirstMatch | FamilyLoop/components/FamilyEvents.tsx:174-184 | for a non-empty name the if-chain is first-match-wins over the ordered checks mom/mother, dad/father, sister/sis, brother/bro, uncle, aunt, grandma/grandmother, grandpa/grandfather, cousin |
| ContactSearch.EnrichContacts | FamilyLoop/components/FamilyEvents.tsx:156-160 | every loaded contact kept, in order, with its fields; relationship from the basic classifier on `name` or ''; group always 'Contacts' |
| ContactSearch.EnrichedNeverWorkOrFriend | FamilyLoop/components/FamilyEvents.tsx:156-160 | no loaded contact is given the relationship 'Work' or 'Friend' |
| ContactSearch.MatchesQuery | FamilyLoop/components/FamilyEvents.tsx:138-141 | the empty query matches every contact; a query holding an upper-case letter matches none, because both fields are lower-cased |
| ContactSearch.UpperNeverOccurs | FamilyLoop/components/FamilyEvents.tsx:136-141 | a pattern holding an upper-case letter never occurs in a lower-cased string |
| ContactSearch.SearchContacts | FamilyLoop/components/FamilyEvents.tsx:131-145 | a blank query gives nothing; otherwise the result is the first min(10, matches) contacts, in order, whose lower-cased name or relationship holds the lower-cased untrimmed query |
| ContactSearch.SearchResultsMatch | FamilyLoop/components/FamilyEvents.tsx:137-142 | the result is an order-preserving selection from all contacts, and every result matches the query |
| ContactSearch.SearchFindsAllFewMatches | FamilyLoop/components/FamilyEvents.tsx:138-142 | with at most ten matches, every matching contact is offered |
| Text.Lower | FamilyLoop/utils/nameDetector.js:19 | `toLowerCase` keeps the length, maps each of A-Z to its lower-case letter and every other character to itself, and returns a string with no upper-case letter; a string with none is returned unchanged |
| Text.Contains | FamilyLoop/utils/nameDetector.js:23 | `includes`: a pattern can occur only if it is no longer than the text, and the empty pattern occurs in every text |
| Text.Trim | FamilyLoop/components/FamilyEvents.tsx:256 | `trim()` returns the slice left once whitespace is removed from both ends; it is empty exactly when the text is all whitespace, and otherwise starts and ends with a non-blank |
| Seqs.Filter | FamilyLoop/components/FamilyEvents.tsx:317 | `filter` returns an order-preserving selection of the input, of passing elements only, as many as pass, holding every passing element |
| Seqs.Take | FamilyLoop/components/FamilyEvents.tsx:142 | `slice(0, n)` returns the prefix of length min(n, length) |
| EventDates.Clean | FamilyLoop/components/FamilyEvents.tsx:224 | the cleaned text holds only digits, '/' and '-' |
| EventDates.CleanConcat | FamilyLoop/components/FamilyEvents.tsx:224 | cleaning works character by character: it distributes over concatenation |
| EventDates.CleanKeeps | FamilyLoop/components/FamilyEvents.tsx:224 | text made only of digits and separators is left as it is |
| EventDates.Split | FamilyLoop/components/FamilyEvents.tsx:225 | one more piece than there are separators; no piece holds a separator; after cleaning, every piece is digits |
| EventDates.SplitOnePiece | FamilyLoop/components/FamilyEvents.tsx:225 | text without a separator splits into itself alone |
| EventDates.SplitAtSeparator | FamilyLoop/components/FamilyEvents.tsx:225 | a separator-free piece followed by a separator splits off as the first piece |
| EventDates.SplitThree | FamilyLoop/components/FamilyEvents.tsx:225 | three digit pieces joined by separators split back into those three pieces |
| EventDates.ParseInt | FamilyLoop/components/FamilyEvents.tsx:229-230 | `parseInt` of a digit piece is NaN (no value) exactly when the piece is empty |
| EventDates.DecimalRoundTrip | FamilyLoop/components/FamilyEvents.tsx:229-240 | reading back a number's decimal digits gives the number |
| EventDates.DateParts | FamilyLoop/components/FamilyEvents.tsx:224-225 | the pieces examined are one more than the separators left after cleaning, and each holds only digits |
| EventDates.ParseDateString | FamilyLoop/components/FamilyEvents.tsx:222-248 | a date is returned only for two or three pieces, and it is a real calendar date; for two pieces both parse, the month is 1..12, the day 1..31 and the date is that day carried into the current year; for three pieces all parse, the year is at least 1900 and the date is that year, month and day carried; any empty piece gives null |
| EventDates.InRangePiecesAccepted | FamilyLoop/components/FamilyEvents.tsx:227-245 | the converse: two or three non-empty pieces with month 1..12, day 1..31 and, for three, year at least 1900 always give a date |
| EventDates.IgnoresOtherCharacters | FamilyLoop/components/FamilyEvents.tsx:224 | inserting a character other than a digit, '/' or '-' anywhere does not change the result |
| EventDates.ParsesWrittenDate | FamilyLoop/components/FamilyEvents.tsx:236-244 | M/D/YYYY with month 1..12, day 1..31 and year at least 1900 parses to that date carried forward, and to exactly that date when the day fits the month |
| EventDates.ParsesWrittenMonthDay | FamilyLoop/components/FamilyEvents.tsx:227-235 | M-D with month 1..12 and day 1..31 parses to that date in the current year carried forward, and to exactly that date when the day fits the month |
| Calendar.DaysInMonth | FamilyLoop/components/FamilyEvents.tsx:244 | a month has 28 to 31 days, and 31 exactly for January, March, May, July, August, October and December |
| Calendar.Carried | FamilyLoop/components/FamilyEvents.tsx:233-244 | `new Date(year, month, day)` with day 1..31 gives a real date of the same year and the same day number, and leaves a real date unchanged |
| Calendar.MovedToYear | FamilyLoop/components/FamilyEvents.tsx:346-349 | `setFullYear(y)` keeps the day number of the same month and day in year `y`, gives a real date in year `y`, and is exactly that date when it exists |
| Calendar.DayNumber | FamilyLoop/components/FamilyEvents.tsx:344-353 | a date with month 1..12 and day 1..31 has a day number within its own year |
| FamilyEvents.TemplateName | FamilyLoop/components/FamilyEvents.tsx:194 | the template literal writes a contact's name as it is, and writes "undefined" exactly when the name is missing or is that word |
| FamilyEvents.EventTitle | FamilyLoop/components/FamilyEvents.tsx:187-196 | the title is empty exactly for a custom event; otherwise it starts with the name as the template writes it, ends with "'s " and the type's label, is exactly as long as those parts, and is never blank |
| FamilyEvents.CheckForm | FamilyLoop/components/FamilyEvents.tsx:250-265 | the checks run in order: no contact gives MissingContact, a blank title gives MissingTitle, an unparsable date gives InvalidDate, each exactly then; otherwise Ready with the selected contact and the parsed, in-range date |
| FamilyEvents.NewEvent | FamilyLoop/components/FamilyEvents.tsx:267-278 | the new event has the given id and contact id, contact name or 'Unknown', the trimmed title, notes trimmed or absent (absent exactly when blank), `reminderDays == [selectedReminder]`, no lastWished, and is active |
| FamilyEvents.WithoutEvent | FamilyLoop/components/FamilyEvents.tsx:317 | every event with another id is kept, in order, and no event with the deleted id is left |
| FamilyEvents.DeleteAbsentId | FamilyLoop/components/FamilyEvents.tsx:317 | deleting an id no event has leaves the list unchanged |
| FamilyEvents.DeleteIdempotent | FamilyLoop/components/FamilyEvents.tsx:317 | deleting an id twice is the same as deleting it once |
| FamilyEvents.MarkedWished | FamilyLoop/components/FamilyEvents.tsx:327-331 | same length; each event differs from before only in `lastWished`, which is set to now exactly for the events with the id |
| FamilyEvents.InsertByDays | FamilyLoop/components/FamilyEvents.tsx:362 | inserting into a list sorted by days until keeps it sorted and adds exactly that one entry |
| FamilyEvents.SortByDays | FamilyLoop/components/FamilyEvents.tsx:362 | the sort returns a permutation of its input, ascending by days until |
| FamilyEvents.NextOccurrenceAsWritten | FamilyLoop/components/FamilyEvents.tsx:344-351 | (as written) a one-off event occurs on its own date; a recurring one on its date moved to this year, or on that moved date moved again to next year, next year exactly when midnight of this year's date is before now (an earlier day, or today past midnight), and this year otherwise |
| FamilyEvents.NextOccurrence | FamilyLoop/components/FamilyEvents.tsx:344-351 | (corrected) a one-off event occurs on its own date; a recurring one on its date moved to this year, or on that moved date moved again to next year, this year whenever that date is today or later, and next year whenever it is an earlier day |
| FamilyEvents.LeapDayMovedTwiceExample | FamilyLoop/components/FamilyEvents.tsx:344-353 | a birthday stored on 29 February 2000, seen at 09:00 on 10 March 2027, moves to 1 March 2027 and then to 1 March 2028, 357 days away under both rules |
| FamilyEvents.Annotate | FamilyLoop/components/FamilyEvents.tsx:353-360 | the entry keeps the event, its next date is the rule's next occurrence, its days until is that date minus today, and it is due exactly when its reminder days hold that number |
| FamilyEvents.GetUpcomingEvents | FamilyLoop/components/FamilyEvents.tsx:336-363 | under either rule: one entry per active event, sorted ascending by days until, a permutation of the annotated active events |
| FamilyEvents.UpcomingEntriesAreActive | FamilyLoop/components/FamilyEvents.tsx:340-361 | under either rule, each entry is an active event of the list, annotated by that rule |
| FamilyEvents.ActiveEventsAreUpcoming | FamilyLoop/components/FamilyEvents.tsx:340-342 | under either rule, every active event appears in the upcoming list, annotated |
| FamilyEvents.NextOccurrenceWithinAYear | FamilyLoop/components/FamilyEvents.tsx:344-351 | (corrected) a recurring event with an in-range date next occurs 0 to 366 days from today, and today exactly when its date this year is today |
| FamilyEvents.AsWrittenWithinAYear | FamilyLoop/components/FamilyEvents.tsx:344-351 | (as written) a recurring event with an in-range date next occurs 0 to 366 days from today, and today exactly when its date this year is today and now is midnight |
| FamilyEvents.NextDayWithinAYear | FamilyLoop/components/FamilyEvents.tsx:344-353 | under either rule, a recurring event with an in-range date is 0 to 366 days away |
| FamilyEvents.UpcomingWithinAYear | FamilyLoop/components/FamilyEvents.tsx:344-353 | under either rule, with in-range dates, every recurring entry of the upcoming list has days until between 0 and 366 |
| FamilyEvents.AsWrittenNeverDayOf | FamilyLoop/components/FamilyEvents.tsx:348 | (as written) once now is past midnight, a recurring event is never 0 days away |
| FamilyEvents.AsWrittenListNeverDayOf | FamilyLoop/components/FamilyEvents.tsx:340-359 | (as written) once now is past midnight, no recurring entry of the list the code shows is 0 days away, and a day-of-only reminder is never due |
| FamilyEvents.DayOfReminderExample | FamilyLoop/components/FamilyEvents.tsx:344-359 | a 10 May birthday with a day-of reminder, seen at 09:00 on 10 May 2025: as written it is 365 days away; corrected it is 0 days away and due |
| FamilyEvents.EventsScreen.constructor | FamilyLoop/components/FamilyEvents.tsx:100-114 | the screen starts with no events and the form at its initial values |
| FamilyEvents.EventsScreen.UpdateEventTitle | FamilyLoop/components/FamilyEvents.tsx:187-196 | with no selected contact the title is untouched; otherwise it becomes the computed event title |
| FamilyEvents.EventsScreen.ResetForm | FamilyLoop/components/FamilyEvents.tsx:292-301 | every form field is back at its initial value, and the events are unchanged |
| FamilyEvents.EventsScreen.CreateEvent | FamilyLoop/components/FamilyEvents.tsx:250-290 | the outcome is the form check; on a failed check nothing changes; otherwise the new event is appended after the existing ones and the form is reset; every stored date stays in range |
| FamilyEvents.EventsScreen.DeleteEvent | FamilyLoop/components/FamilyEvents.tsx:307-324 | the events become the list without the given id; every stored date stays in range |
| FamilyEvents.EventsScreen.MarkAsWished | FamilyLoop/components/FamilyEvents.tsx:326-334 | the events become the list with `lastWished` set on the given id; every stored date stays in range |
| FamilyEvents.EventsScreen.UpcomingEvents | FamilyLoop/components/FamilyEvents.tsx:336-363 | the list the code shows, under the rule as written, and the corrected list beside it; in both, every recurring entry is 0 to 366 days from today |
| MessageGenerator.Opener | ai/message_generator.py:2-7 | "It's been a while!" exactly for more than 30 days, "Just checking in." exactly for more than 14 and at most 30, "Thinking of you." exactly for at most 14 |
| MessageGenerator.GenerateMessage | ai/message_generator.py:1-18 | the message is greeting + name + separator + opener + closing; the greeting, separator and closing depend on the tone alone, and the opener on the days alone |
| MessageGenerator.DefaultTone | ai/message_generator.py:15-16 | any tone other than warm, casual or playful gives "Hi {name}, {opener} Wanted to reach out." |
| MessageGenerator.HoldsNameAndOpener | ai/message_generator.py:9-18 | the message contains the name and the chosen opener |
| MessageGenerator.IgnoresRelationship | ai/message_generator.py:1-18 | the relationship argument does not change the message |
| MessageGenerator.NameRecoverable | ai/message_generator.py:9-16 | for a fixed tone and opener, different names give different messages |
| MessageGenerator.OpenerRecoverable | ai/message_generator.py:2-16 | for a fixed name and tone, equal messages mean equal openers |

## Left out

- AsyncStorage loading and saving, and JSON parsing of stored events: these are storage I/O.
- The device-contacts permission request and fetch: these are device I/O, so the fetched contacts are a parameter.
- `Alert` dialogs, `onEventCreated`, the `showCreateModal` and `eventDate` UI state, the JSX and the styles: these are UI only.
- The Cancel branch of the delete confirmation: only the confirmed delete is modelled, because cancelling changes nothing.
- `selectReminder`: it is a plain setter of `selectedReminder`.
- Contact fields other than id, name, phone numbers, relationship and group: no modelled code reads them, and the spread keeps them untouched.
- `toLowerCase` maps only ASCII A-Z; Unicode case mapping is not modelled.
- JavaScript `Date`: time zones, daylight-saving shifts and leap seconds are not modelled. A moment is a local date plus milliseconds since midnight, fewer than 86400000 (`Calendar.MillisOfDay`). Days until is the difference of day numbers, which is what `Math.ceil` of the millisecond difference gives when days are 24 hours long.
- EventDates.ParseDateString: for three pieces that give a date after 13 September 275760, the source's `new Date` is an Invalid Date. That object is truthy, so `createEvent` stores it (FamilyEvents.tsx lines 243 and 262). The model returns and stores an ordinary date instead.
- `parseInt` on digit strings longer than a double can hold exactly: the model reads them as unbounded naturals.
- The `|| 'Event'` fallback in `updateEventTitle`: every event type has a label, so it cannot be reached.
- The `Date.now()` event id: it is taken as a parameter.
- FamilyEvents.SortByDays: the contract does not state that entries with equal days until keep their order (sort stability).
- MessageGenerator.Opener: the days since contact are an integer. The caller in `ai/mlflow_wrapper.py` may pass a float or NaN taken from its input table. Then 14.5 gives "Just checking in.", and NaN fails both comparisons and gives "Thinking of you."; the model does not cover these inputs.
- The other files of the repository, which are UI screens, mocked authentication, navigation, and MLflow registration and wrapper code, such as `ai/mlflow_wrapper.py`: they are not part of this model.

## Findings

| source | as written | input that shows it | evidently intended | confidence | as-written member | corrected member |
|---|---|---|---|---|---|---|
| FamilyLoop/components/FamilyEvents.tsx:348 | `nextDate < now` compares the midnight that starts this year's occurrence with the current moment, time of day included. On the day of a recurring event, any time after midnight pushes the event to next year. | A recurring birthday on 10 May with reminder days [0] ("Day of event"), seen at 09:00 on 10 May 2025: days until is 365, so the reminder is not due. | An event whose date is today is 0 days away, and its day-of reminder is due. | medium, not executed | FamilyEvents.AsWrittenNeverDayOf | FamilyEvents.NextOccurrenceWithinAYear |
