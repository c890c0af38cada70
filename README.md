# Slot generation and booking list of a small appointment-scheduling server

This project models the core of a single-owner scheduling backend (`server.js`):

- **Slot generation** (`getAvailableSlots`): walk the days of a date range; on each day the
  weekly template marks open, propose back-to-back candidates of length `duration` spaced
  `duration + bufferTime` apart from the opening time, and keep a candidate when it fits in the
  window, starts strictly after "now" and does not overlap any booking under the half-open test
  `slotStart < bookingEnd && slotEnd > bookingStart`.
- **The booking list**: a request lacking `name`, `email`, `startTime` or `endTime` is rejected
  with "Missing required fields", otherwise one record is appended; a cancellation removes the
  first record with the given id and returns it, or reports "Not found".
- **The configuration load**: a stored document is merged over the defaults at the top level
  (stored keys win); a missing or unreadable file makes the server write back and use the defaults.

Time is abstracted to integer minutes. A day is 1440 minutes, the day of minute `t` is
`t / 1440`, and the weekday of day `d` is taken from `d % 7`, day 0 (1970-01-01) being a
Thursday. The template is a map from weekday to an optional window given as minutes after
midnight. The clock reading "now", the new booking's id and its creation time are parameters.

Files:
- `wrappers.dfy`: Option and Result.
- `bookings.dfy`: module `Bookings`. It holds the request and booking records and the
  `BookingStore` class, whose `bookings: seq<Booking>` field is the list that the book and cancel
  handlers change in place. `FindIndex` is the `findIndex` search. `WithoutFirst` is a reference
  definition of cancellation.
- `slots.dfy`: module `Slots`. The method `AvailableSlots` is the day loop. The method
  `CollectVisitedDay` is one pass of it: the template lookup and the day's window. The method
  `CollectDay` is the inner candidate loop. Both are proved equal to the functions `RangeSlots`
  and `DaySlots`.
- `slot_properties.dfy`: module `SlotProperties`. It states exactly which slots are emitted, and
  proves the consequences.
- `config.dfy`: module `Config`, the default configuration as a JSON value and the shallow merge.

On a failed configuration read the server returns the defaults alone. It does not merge them
with any partial document (server.js:46-48).

`AvailableSlots` requires `duration + bufferTime > 0`. Once a day window is non-empty, the inner
loop (server.js:82-94) never ends for a step of 0. For a negative step it runs for billions of
iterations, until the time value leaves the range of JavaScript dates and the comparison fails.
The query handling (`parseInt(duration) || config.meetingDuration`, server.js:116) lets a
negative duration reach it.

The order property (`RangeSlotsChronological`) also needs every window to lie within its own day
(`WindowsWithinDay`). The condition is needed: `setHours` accepts hours past 24, so a window
such as "00:00"-"40:00" runs into the next day, and its last slots can then overlap the first
slots of the following day.

Calling `AvailableSlots` twice with the same inputs gives the same listing, since its result is
fixed by its postcondition as a function of the inputs.

## Model

| member | source | states |
|---|---|---|
| Bookings.Message | server.js:123-141 | the two error replies are "Missing required fields" and "Not found" |
| Bookings.NewBooking | server.js:126-130 | the stored record carries the given id and creation time and exactly the request's name, email, times, meeting type and notes |
| Bookings.Given | server.js:122 | a text field counts as given when it is present and not the empty string, the two cases JavaScript treats as truthy for a string |
| Bookings.HasRequiredFields | server.js:122 | a request may be booked exactly when name and email are given and both times are present |
| Bookings.WithoutFirst | server.js:140-142 | the reference cancellation: walks the list and drops the first booking whose id matches, keeping the rest in order; an id that no booking carries leaves the list as it is |
| Bookings.FindIndex | server.js:140 | returns -1 exactly when no booking has the id, otherwise the index of the first booking with that id |
| Bookings.WithoutFirstAt | server.js:140-142 | splicing out the first match is the same list as the reference cancellation that drops the first booking with the id |
| Bookings.WithoutFirstAbsent | server.js:141 | cancelling an id that no booking carries leaves the list unchanged |
| Bookings.WithoutFirstRemovesOne | server.js:142 | a cancellation shortens the list by one, removes one occurrence of the matched booking from the multiset, and keeps every other booking in its original order |
| Bookings.BookThenCancel | server.js:126-143 | after appending a booking with a fresh id, the first match for that id is the new booking and cancelling it restores the old list; appending a fresh id keeps ids unique |
| Bookings.CancelledIdGone | server.js:140-142 | when ids are unique, no booking with the cancelled id remains |
| Bookings.BookingStore.constructor | server.js:51-56 | the store starts with the loaded list |
| Bookings.BookingStore.Book | server.js:120-134 | fails with MissingRequiredFields, list unchanged, exactly when a required field is missing or empty; otherwise returns the new record and the list is the old list plus that record at the end |
| Bookings.BookingStore.Cancel | server.js:138-145 | fails with NotFound, list unchanged, exactly when no booking has the id; otherwise returns the first booking with the id and the list is the old one with that element spliced out, one shorter |
| Bookings.BookAndCancel | server.js:120-145 | a complete request booked with a fresh id and then cancelled returns the same record both times and leaves the store as it was |
| Slots.DefaultTemplate | server.js:22-30 | Monday to Friday open from 540 to 1020 minutes after midnight (09:00-17:00), Saturday and Sunday null |
| Slots.DefaultMeetingDuration | server.js:20 | the default meeting length is 30 minutes |
| Slots.DefaultBufferTime | server.js:21 | the default gap after a meeting is 15 minutes |
| Slots.DayWindow | server.js:69-70 | the template entry for the weekday of a day, None when the weekday has no entry or its entry is null |
| Slots.Overlaps | server.js:85-88 | a slot and a booking overlap when the slot starts before the booking ends and ends after the booking starts |
| Slots.IsBooked | server.js:85-88 | a candidate is booked when some booking of the list overlaps it |
| Slots.Accepted | server.js:84-89 | a candidate is kept when it ends by the close, no booking overlaps it and it starts strictly after now |
| Slots.DaySlots | server.js:81-94 | the kept candidates of one window in order: from the current candidate, each accepted one is emitted and the next candidate starts one step later, until a candidate starts at or after the close |
| Slots.DayContribution | server.js:69-94 | the slots of the day containing a minute: none when its weekday's entry is absent or null, otherwise DaySlots over that day's window with step duration + bufferTime |
| Slots.RangeSlots | server.js:67-97 | the whole listing: the day contributions of current, current + 1440, and so on while the visited minute is before endDate, concatenated in visiting order |
| Slots.WeekdayOf | server.js:69 | the weekday of a day index is fixed by the index modulo 7, with 0 Thursday, 1 Friday, 2 Saturday, 3 Sunday, 4 Monday, 5 Tuesday and 6 Wednesday |
| Slots.OverlapsIffSharedMinute | server.js:85-88 | for non-empty intervals the half-open overlap test holds exactly when some minute lies in both the slot and the booking |
| Slots.AvailableSlots | server.js:62-99 | the day loop returns exactly RangeSlots of its inputs: the kept candidates of every visited open day, day after day |
| Slots.CollectVisitedDay | server.js:69-95 | one pass of the day loop appends exactly the slots of the visited day: none when its template entry is absent or null, otherwise the kept candidates of its window |
| Slots.CollectDay | server.js:81-94 | the candidate loop appends exactly DaySlots of the window to the slots collected so far: every candidate from the opening time that ends by the close, overlaps no booking and starts after now |
| SlotProperties.DaySlotsMembers | server.js:81-94 | a slot is emitted for a day exactly when its start is dayStart + k*(duration + bufferTime) for some k >= 0 and before the close, its end is start + duration, it ends by the close, overlaps no booking and starts after now |
| SlotProperties.DayContributionMembers | server.js:70-94 | a slot comes from the day containing a minute exactly when that day's template entry is present and the slot is an accepted candidate of its window |
| SlotProperties.RangeSlotsMembers | server.js:67-97 | a slot is in the listing exactly when it is emitted on one of the visited days startDate + i*1440 that are before endDate |
| SlotProperties.EmittedSlot | server.js:76-90 | every emitted slot has length exactly duration, starts strictly after now, overlaps no booking, and lies inside the open window of a visited day whose template entry is present |
| SlotProperties.ClosedRangeIsEmpty | server.js:70-72 | when every visited day's template entry is absent or null, no slot is emitted |
| SlotProperties.DaySlotsBounds | server.js:82-84 | every slot of a day starts at or after the first candidate and before the close, and ends by the close |
| SlotProperties.DaySlotsChronological | server.js:82-93 | with duration at most the step, a day's slots have strictly increasing starts and each ends before the next begins |
| SlotProperties.DayContributionBounds | server.js:76-93 | with windows inside the day, every slot of a day starts and ends within that day |
| SlotProperties.RangeSlotsChronological | server.js:67-97 | with bufferTime >= 0 and windows inside their day, the whole listing has strictly increasing starts and no two slots overlap |
| SlotProperties.DefaultMondayExample | server.js:81-93 | with the default Monday 09:00-17:00, duration 30, buffer 15 and no bookings, the first slots are 09:00-09:30 and 09:45-10:15 |
| Config.DefaultConfig | server.js:16-39 | the default configuration document, key by key and value by value |
| Config.Merge | server.js:44 | the merged configuration has the keys of both maps, the stored value wherever the stored document has the key and the default value elsewhere |
| Config.LoadConfig | server.js:41-49 | a readable document is merged over the defaults without a rewrite; a missing or unreadable file yields exactly the defaults and a rewrite; every default key is present either way |
| Config.ReloadAfterRewrite | server.js:43-48 | after the defaults are written back, the next load reads them and yields the same configuration without another rewrite |

## Left out

- HTTP routing, CORS, static files, the status codes and JSON envelopes of replies (server.js:8-11, 101-148): outcomes are Result values and the error texts are `Bookings.Message`.
- File reading and writing and JSON parsing (server.js:41-60): the booking list is the state of a `BookingStore`, and the configuration file is represented by what reading it produced (`Config.Stored`); a parsed document that is not a JSON object is not modelled.
- The `googleapis` and `nodemailer` imports (server.js:3-4): they are never called.
- Local time: weekday naming by locale, `setHours`/`setDate` with daylight-saving days, and ISO formatting (server.js:69, 77-79, 90, 96). Days are 1440 minutes and slots are pairs of minute counts.
- Parsing of "HH:MM" template strings, including malformed ones (server.js:73-74): the typed template gives windows as minutes after midnight (`Slots.DefaultTemplate`), while `Config.DefaultConfig` keeps the strings as stored.
- The typed reading of `meetingDuration`, `bufferTime` and `availability` out of the loaded configuration: `AvailableSlots` takes them as parameters.
- Booking times that do not parse as dates: every booking's times are integer minutes, so the never-overlapping behaviour of an invalid date is not modelled.
- Request fields use JavaScript falsiness only as "absent or empty string" for the text fields and "absent" for the times; a time given as the number 0, or an empty time string, is not modelled.
- Id generation from the clock and randomness (server.js:127) and the creation timestamp (server.js:129): both are parameters; freshness of the id is an assumption of the round-trip lemmas.
- The clock advancing while the listing runs (server.js:89 reads it per candidate): "now" is a single parameter.
- Query defaulting and `parseInt` (server.js:112-116), and the `GET /api/config` projection (server.js:101-109).
- The lost-update race between concurrent read-modify-write cycles on the bookings file: concurrency is out of scope.
- Floating-point time values: JavaScript millisecond numbers become unbounded integer minutes.
