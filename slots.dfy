/**
  Slot generation for the scheduling server. Every timestamp is an integer
  number of minutes on one clock whose minute 0 is midnight at the start of
  day 0, and a day is 1440 minutes; day 0 (1970-01-01) is a Thursday.
  For each day visited from the start of the range, the weekly template gives
  an open window; candidates of length `duration` are proposed every
  `duration + bufferTime` minutes from the window's opening, and a candidate is
  kept when it fits in the window, starts after `now` and overlaps no booking.
*/
module Slots {
  import opened Wrappers
  import opened Bookings

  const MinutesPerDay: int := 1440

  datatype Weekday = Sunday | Monday | Tuesday | Wednesday | Thursday | Friday | Saturday

  /** The weekday of a day index. */
  function WeekdayOf(day: int): (w: Weekday)
    ensures day % 7 == 0 <==> w == Thursday
    ensures day % 7 == 1 <==> w == Friday
    ensures day % 7 == 2 <==> w == Saturday
    ensures day % 7 == 3 <==> w == Sunday
    ensures day % 7 == 4 <==> w == Monday
    ensures day % 7 == 5 <==> w == Tuesday
    ensures day % 7 == 6 <==> w == Wednesday
  {
    match day % 7
    case 0 => Thursday
    case 1 => Friday
    case 2 => Saturday
    case 3 => Sunday
    case 4 => Monday
    case 5 => Tuesday
    case _ => Wednesday
  }

  /** An open window of one day, as minutes after that day's midnight. */
  datatype Window = Window(open: int, close: int)

  /** The weekly availability: a weekday that is absent or mapped to None is closed. */
  type Template = map<Weekday, Option<Window>>

  /** The template the server starts with: Monday to Friday 09:00-17:00, weekends closed. */
  const DefaultTemplate: Template := map[
    Monday := Some(Window(540, 1020)),
    Tuesday := Some(Window(540, 1020)),
    Wednesday := Some(Window(540, 1020)),
    Thursday := Some(Window(540, 1020)),
    Friday := Some(Window(540, 1020)),
    Saturday := None,
    Sunday := None]

  const DefaultMeetingDuration: int := 30
  const DefaultBufferTime: int := 15

  function DayOf(t: int): int
  {
    t / MinutesPerDay
  }

  function DayWindow(template: Template, day: int): Option<Window>
  {
    var name := WeekdayOf(day);
    if name in template then template[name] else None
  }

  datatype Slot = Slot(start: int, end: int)

  /** The overlap test between a candidate and a booking. */
  predicate Overlaps(start: int, end: int, b: Booking)
  {
    start < b.endTime && end > b.startTime
  }

  predicate Covers(lo: int, hi: int, t: int)
  {
    lo <= t < hi
  }

  /** For non-empty intervals the overlap test holds exactly when some minute lies in both. */
  lemma OverlapsIffSharedMinute(start: int, end: int, b: Booking)
    requires start < end && b.startTime < b.endTime
    ensures Overlaps(start, end, b) <==>
            exists t :: Covers(start, end, t) && Covers(b.startTime, b.endTime, t)
  {
    if Overlaps(start, end, b) {
      var t := if start < b.startTime then b.startTime else start;
      assert Covers(start, end, t) && Covers(b.startTime, b.endTime, t);
    }
  }

  predicate IsBooked(start: int, end: int, bookings: seq<Booking>)
  {
    exists j :: 0 <= j < |bookings| && Overlaps(start, end, bookings[j])
  }

  /** The three conditions under which a candidate is emitted. */
  predicate Accepted(start: int, end: int, dayEnd: int, bookings: seq<Booking>, now: int)
  {
    end <= dayEnd && !IsBooked(start, end, bookings) && start > now
  }

  /** The k-th candidate start of a day. */
  function Candidate(dayStart: int, step: int, k: nat): int
  {
    dayStart + k * step
  }

  /** The slots kept on one day, from the candidate at `slotStart` on. */
  function DaySlots(slotStart: int, dayEnd: int, duration: int, step: int,
                    bookings: seq<Booking>, now: int): seq<Slot>
    requires step > 0
    decreases dayEnd - slotStart
  {
    if slotStart >= dayEnd then []
    else
      var slotEnd := slotStart + duration;
      (if Accepted(slotStart, slotEnd, dayEnd, bookings, now) then [Slot(slotStart, slotEnd)] else [])
        + DaySlots(slotStart + step, dayEnd, duration, step, bookings, now)
  }

  /** The slots kept on the day that contains minute `current`. */
  function DayContribution(current: int, duration: int, bufferTime: int, template: Template,
                           bookings: seq<Booking>, now: int): seq<Slot>
    requires duration + bufferTime > 0
  {
    var day := DayOf(current);
    match DayWindow(template, day)
    case None => []
    case Some(w) =>
      DaySlots(day * MinutesPerDay + w.open, day * MinutesPerDay + w.close,
               duration, duration + bufferTime, bookings, now)
  }

  /** The slots kept on the days visited from `current` while the visit is before `endDate`. */
  function RangeSlots(current: int, endDate: int, duration: int, bufferTime: int, template: Template,
                      bookings: seq<Booking>, now: int): seq<Slot>
    requires duration + bufferTime > 0
    decreases endDate - current
  {
    if current >= endDate then []
    else DayContribution(current, duration, bufferTime, template, bookings, now)
         + RangeSlots(current + MinutesPerDay, endDate, duration, bufferTime, template, bookings, now)
  }

  /** The slot listing: walk the days, then the candidates of each open day. */
  method AvailableSlots(startDate: int, endDate: int, duration: int, bufferTime: int,
                        template: Template, bookings: seq<Booking>, now: int)
    returns (slots: seq<Slot>)
    requires duration + bufferTime > 0
    ensures slots == RangeSlots(startDate, endDate, duration, bufferTime, template, bookings, now)
  {
    slots := [];
    var current := startDate;
    while current < endDate
      invariant slots + RangeSlots(current, endDate, duration, bufferTime, template, bookings, now)
                == RangeSlots(startDate, endDate, duration, bufferTime, template, bookings, now)
      decreases endDate - current
    {
      ghost var before := slots;
      slots := CollectVisitedDay(slots, current, duration, bufferTime, template, bookings, now);
      VisitDay(before, slots, current, endDate, duration, bufferTime, template, bookings, now);
      current := current + MinutesPerDay;
    }
  }

  /** The body of the day loop: look the day's weekday up in the template and, when it is open,
      append the kept candidates of its window. */
  method CollectVisitedDay(slots: seq<Slot>, current: int, duration: int, bufferTime: int, template: Template,
                           bookings: seq<Booking>, now: int)
    returns (out: seq<Slot>)
    requires duration + bufferTime > 0
    ensures out == slots + DayContribution(current, duration, bufferTime, template, bookings, now)
  {
    var day := DayOf(current);
    var dayAvailability := DayWindow(template, day);
    if dayAvailability.Some? {
      var dayStart := day * MinutesPerDay + dayAvailability.value.open;
      var dayEnd := day * MinutesPerDay + dayAvailability.value.close;
      out := CollectDay(slots, dayStart, dayEnd, duration, bufferTime, bookings, now);
    } else {
      out := slots;
    }
  }

  /** One visited day of the listing: once its slots are appended, the rest of the listing is that of the following days. */
  lemma VisitDay(before: seq<Slot>, after: seq<Slot>, current: int, endDate: int, duration: int, bufferTime: int,
                 template: Template, bookings: seq<Booking>, now: int)
    requires duration + bufferTime > 0 && current < endDate
    requires after == before + DayContribution(current, duration, bufferTime, template, bookings, now)
    ensures before + RangeSlots(current, endDate, duration, bufferTime, template, bookings, now)
            == after + RangeSlots(current + MinutesPerDay, endDate, duration, bufferTime, template, bookings, now)
  {
    var today := DayContribution(current, duration, bufferTime, template, bookings, now);
    var rest := RangeSlots(current + MinutesPerDay, endDate, duration, bufferTime, template, bookings, now);
    assert RangeSlots(current, endDate, duration, bufferTime, template, bookings, now) == today + rest;
    assert before + (today + rest) == before + today + rest;
  }

  /** The inner loop of the slot listing: append the kept candidates of one day to `slots`. */
  method CollectDay(slots: seq<Slot>, dayStart: int, dayEnd: int, duration: int, bufferTime: int,
                    bookings: seq<Booking>, now: int)
    returns (out: seq<Slot>)
    requires duration + bufferTime > 0
    ensures out == slots + DaySlots(dayStart, dayEnd, duration, duration + bufferTime, bookings, now)
  {
    out := slots;
    var slotStart := dayStart;
    while slotStart < dayEnd
      invariant out + DaySlots(slotStart, dayEnd, duration, duration + bufferTime, bookings, now)
                == slots + DaySlots(dayStart, dayEnd, duration, duration + bufferTime, bookings, now)
      decreases dayEnd - slotStart
    {
      var slotEnd := slotStart + duration;
      ghost var rest := DaySlots(slotStart + (duration + bufferTime), dayEnd, duration, duration + bufferTime, bookings, now);
      if slotEnd <= dayEnd {
        var isBooked := IsBooked(slotStart, slotEnd, bookings);
        if !isBooked && slotStart > now {
          assert out + [Slot(slotStart, slotEnd)] + rest == out + ([Slot(slotStart, slotEnd)] + rest);
          out := out + [Slot(slotStart, slotEnd)];
        }
      }
      slotStart := slotStart + (duration + bufferTime);
    }
  }
}
