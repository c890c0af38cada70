/**
  What the slot listing promises: a characterisation of exactly which slots
  are emitted, and the consequences the server relies on (length, containment
  in an open window, no conflict with a booking, only future slots, and
  chronological order).
*/
module SlotProperties {
  import opened Wrappers
  import opened Bookings
  import opened Slots

  /** `start` is one of the candidate starts of a day opening at `dayStart` and closing at `dayEnd`. */
  ghost predicate IsCandidate(dayStart: int, dayEnd: int, step: int, start: int)
  {
    start < dayEnd && exists k: nat :: Candidate(dayStart, step, k) == start
  }

  /** Independent description of a slot emitted on the day containing minute `current`. */
  ghost predicate EmittedOn(current: int, duration: int, bufferTime: int, template: Template,
                            bookings: seq<Booking>, now: int, s: Slot)
  {
    var day := DayOf(current);
    match DayWindow(template, day)
    case None => false
    case Some(w) =>
      var dayStart := day * MinutesPerDay + w.open;
      var dayEnd := day * MinutesPerDay + w.close;
      IsCandidate(dayStart, dayEnd, duration + bufferTime, s.start)
      && s.end == s.start + duration
      && Accepted(s.start, s.end, dayEnd, bookings, now)
  }

  /** The i-th day visited from `startDate`. */
  function Visited(startDate: int, i: nat): int
  {
    startDate + i * MinutesPerDay
  }

  lemma CandidateShift(dayStart: int, step: int, k: nat)
    ensures Candidate(dayStart, step, k + 1) == Candidate(dayStart + step, step, k)
  {
  }

  lemma CandidateAtLeast(dayStart: int, step: int, k: nat)
    requires step > 0
    ensures Candidate(dayStart, step, k) >= dayStart
  {
  }

  /** Within one day, a slot is emitted exactly when it is a candidate of the right length that is accepted. */
  lemma {:induction false} DaySlotsMembers(slotStart: int, dayEnd: int, duration: int, step: int,
                                           bookings: seq<Booking>, now: int, s: Slot)
    requires step > 0
    ensures s in DaySlots(slotStart, dayEnd, duration, step, bookings, now) <==>
            IsCandidate(slotStart, dayEnd, step, s.start) && s.end == s.start + duration
            && Accepted(s.start, s.end, dayEnd, bookings, now)
    decreases dayEnd - slotStart
  {
    if slotStart >= dayEnd {
      if IsCandidate(slotStart, dayEnd, step, s.start) {
        var k: nat :| Candidate(slotStart, step, k) == s.start;
        CandidateAtLeast(slotStart, step, k);
      }
    } else {
      var here := Slot(slotStart, slotStart + duration);
      var head := if Accepted(slotStart, slotStart + duration, dayEnd, bookings, now) then [here] else [];
      var tail := DaySlots(slotStart + step, dayEnd, duration, step, bookings, now);
      assert DaySlots(slotStart, dayEnd, duration, step, bookings, now) == head + tail;
      DaySlotsMembers(slotStart + step, dayEnd, duration, step, bookings, now, s);
      if s in head {
        assert Candidate(slotStart, step, 0) == slotStart;
        assert IsCandidate(slotStart, dayEnd, step, s.start);
      }
      if s in tail {
        var k: nat :| Candidate(slotStart + step, step, k) == s.start;
        CandidateShift(slotStart, step, k);
        assert IsCandidate(slotStart, dayEnd, step, s.start);
      }
      if IsCandidate(slotStart, dayEnd, step, s.start) && s.end == s.start + duration
         && Accepted(s.start, s.end, dayEnd, bookings, now) {
        var k: nat :| Candidate(slotStart, step, k) == s.start;
        if k == 0 {
          assert s == here;
          assert s in head;
        } else {
          CandidateShift(slotStart, step, k - 1);
          assert IsCandidate(slotStart + step, dayEnd, step, s.start);
          assert s in tail;
        }
        assert s in head + tail;
      }
    }
  }

  lemma DayContributionMembers(current: int, duration: int, bufferTime: int, template: Template,
                               bookings: seq<Booking>, now: int, s: Slot)
    requires duration + bufferTime > 0
    ensures s in DayContribution(current, duration, bufferTime, template, bookings, now) <==>
            EmittedOn(current, duration, bufferTime, template, bookings, now, s)
  {
    var day := DayOf(current);
    match DayWindow(template, day)
    case None =>
    case Some(w) =>
      DaySlotsMembers(day * MinutesPerDay + w.open, day * MinutesPerDay + w.close,
                      duration, duration + bufferTime, bookings, now, s);
  }

  /** A slot is emitted on a day visited from `startDate` exactly when it is emitted on the first
      such day or on a day visited from the next one. */
  lemma VisitedDaysStep(startDate: int, next: int, endDate: int, duration: int, bufferTime: int,
                        template: Template, bookings: seq<Booking>, now: int, s: Slot)
    requires startDate < endDate && next == startDate + MinutesPerDay
    ensures (exists i: nat :: Visited(startDate, i) < endDate
                              && EmittedOn(Visited(startDate, i), duration, bufferTime, template, bookings, now, s))
            <==>
            EmittedOn(startDate, duration, bufferTime, template, bookings, now, s)
            || (exists i: nat :: Visited(next, i) < endDate
                                 && EmittedOn(Visited(next, i), duration, bufferTime, template, bookings, now, s))
  {
    if exists i: nat :: Visited(next, i) < endDate
                        && EmittedOn(Visited(next, i), duration, bufferTime, template, bookings, now, s) {
      var i: nat :| Visited(next, i) < endDate
                    && EmittedOn(Visited(next, i), duration, bufferTime, template, bookings, now, s);
      assert Visited(startDate, i + 1) == Visited(next, i);
    }
    if EmittedOn(startDate, duration, bufferTime, template, bookings, now, s) {
      assert Visited(startDate, 0) == startDate;
    }
    if exists i: nat :: Visited(startDate, i) < endDate
                        && EmittedOn(Visited(startDate, i), duration, bufferTime, template, bookings, now, s) {
      var i: nat :| Visited(startDate, i) < endDate
                    && EmittedOn(Visited(startDate, i), duration, bufferTime, template, bookings, now, s);
      if i > 0 {
        assert Visited(next, i - 1) == Visited(startDate, i);
      }
    }
  }

  /** Over the whole range, a slot is emitted exactly when it is emitted on one of the visited days. */
  lemma {:induction false} RangeSlotsMembers(startDate: int, endDate: int, duration: int, bufferTime: int,
                                             template: Template, bookings: seq<Booking>, now: int, s: Slot)
    requires duration + bufferTime > 0
    ensures s in RangeSlots(startDate, endDate, duration, bufferTime, template, bookings, now) <==>
            exists i: nat :: Visited(startDate, i) < endDate
                             && EmittedOn(Visited(startDate, i), duration, bufferTime, template, bookings, now, s)
    decreases endDate - startDate
  {
    if startDate >= endDate {
      assert forall i: nat :: Visited(startDate, i) >= startDate;
    } else {
      var next := startDate + MinutesPerDay;
      var today := DayContribution(startDate, duration, bufferTime, template, bookings, now);
      var rest := RangeSlots(next, endDate, duration, bufferTime, template, bookings, now);
      assert RangeSlots(startDate, endDate, duration, bufferTime, template, bookings, now) == today + rest;
      assert s in today + rest <==> s in today || s in rest;
      DayContributionMembers(startDate, duration, bufferTime, template, bookings, now, s);
      RangeSlotsMembers(next, endDate, duration, bufferTime, template, bookings, now, s);
      VisitedDaysStep(startDate, next, endDate, duration, bufferTime, template, bookings, now, s);
    }
  }

  /** `s` lies inside the open window of the day containing minute `current`. */
  ghost predicate InOpenWindow(template: Template, current: int, s: Slot)
  {
    var day := DayOf(current);
    match DayWindow(template, day)
    case None => false
    case Some(w) => day * MinutesPerDay + w.open <= s.start && s.end <= day * MinutesPerDay + w.close
  }

  /** What a slot emitted on one day satisfies, read off the day's description. */
  lemma EmittedOnFacts(current: int, duration: int, bufferTime: int, template: Template,
                       bookings: seq<Booking>, now: int, s: Slot)
    requires duration + bufferTime > 0
    requires EmittedOn(current, duration, bufferTime, template, bookings, now, s)
    ensures s.end - s.start == duration && s.start > now
    ensures !IsBooked(s.start, s.end, bookings)
    ensures InOpenWindow(template, current, s)
  {
    var w := DayWindow(template, DayOf(current)).value;
    var dayStart := DayOf(current) * MinutesPerDay + w.open;
    var k: nat :| Candidate(dayStart, duration + bufferTime, k) == s.start;
    CandidateAtLeast(dayStart, duration + bufferTime, k);
  }

  /** Every emitted slot has the requested length, starts after now, conflicts with no booking,
      and lies in the open window of a visited day whose template entry is present. */
  lemma EmittedSlot(startDate: int, endDate: int, duration: int, bufferTime: int,
                    template: Template, bookings: seq<Booking>, now: int, s: Slot)
    requires duration + bufferTime > 0
    requires s in RangeSlots(startDate, endDate, duration, bufferTime, template, bookings, now)
    ensures s.end - s.start == duration
    ensures s.start > now
    ensures forall j :: 0 <= j < |bookings| ==> !Overlaps(s.start, s.end, bookings[j])
    ensures exists i: nat :: Visited(startDate, i) < endDate && InOpenWindow(template, Visited(startDate, i), s)
  {
    RangeSlotsMembers(startDate, endDate, duration, bufferTime, template, bookings, now, s);
    var i: nat :| Visited(startDate, i) < endDate
                  && EmittedOn(Visited(startDate, i), duration, bufferTime, template, bookings, now, s);
    EmittedOnFacts(Visited(startDate, i), duration, bufferTime, template, bookings, now, s);
  }

  /** A range in which every visited day is closed yields no slot. */
  lemma ClosedRangeIsEmpty(startDate: int, endDate: int, duration: int, bufferTime: int,
                           template: Template, bookings: seq<Booking>, now: int)
    requires duration + bufferTime > 0
    requires forall i: nat :: Visited(startDate, i) < endDate ==> DayWindow(template, DayOf(Visited(startDate, i))).None?
    ensures RangeSlots(startDate, endDate, duration, bufferTime, template, bookings, now) == []
  {
    var r := RangeSlots(startDate, endDate, duration, bufferTime, template, bookings, now);
    if r != [] {
      RangeSlotsMembers(startDate, endDate, duration, bufferTime, template, bookings, now, r[0]);
    }
  }

  /** Slots in increasing order of start, each ending no later than the next one starts. */
  ghost predicate Chronological(s: seq<Slot>)
  {
    forall i, j :: 0 <= i < j < |s| ==> s[i].end <= s[j].start && s[i].start < s[j].start
  }

  lemma ChronologicalConcat(a: seq<Slot>, b: seq<Slot>)
    requires Chronological(a) && Chronological(b)
    requires forall x, y :: x in a && y in b ==> x.end <= y.start && x.start < y.start
    ensures Chronological(a + b)
  {
  }

  /** Each slot of a day starts at or after the current candidate, before the close, and ends by the close. */
  lemma {:induction false} DaySlotsBounds(slotStart: int, dayEnd: int, duration: int, step: int,
                                          bookings: seq<Booking>, now: int)
    requires step > 0
    ensures forall s :: s in DaySlots(slotStart, dayEnd, duration, step, bookings, now) ==>
              slotStart <= s.start < dayEnd && s.end <= dayEnd
    decreases dayEnd - slotStart
  {
    if slotStart < dayEnd {
      DaySlotsBounds(slotStart + step, dayEnd, duration, step, bookings, now);
    }
  }

  /** One step of the day listing: the current candidate, when kept, then the later candidates. */
  lemma DaySlotsUnfold(slotStart: int, dayEnd: int, duration: int, step: int,
                       bookings: seq<Booking>, now: int)
    requires step > 0 && slotStart < dayEnd
    ensures DaySlots(slotStart, dayEnd, duration, step, bookings, now)
            == (if Accepted(slotStart, slotStart + duration, dayEnd, bookings, now)
                then [Slot(slotStart, slotStart + duration)] else [])
               + DaySlots(slotStart + step, dayEnd, duration, step, bookings, now)
  {
  }

  /** Putting a candidate that ends by `lo` in front of slots starting at or after `lo`, or leaving it out, keeps the order. */
  lemma PrependCandidate(x: Slot, keep: bool, tail: seq<Slot>, lo: int)
    requires Chronological(tail)
    requires x.start < lo && x.end <= lo
    requires forall y :: y in tail ==> lo <= y.start
    ensures Chronological((if keep then [x] else []) + tail)
  {
    var c := (if keep then [x] else []) + tail;
    if keep {
      forall i, j | 0 <= i < j < |c| ensures c[i].end <= c[j].start && c[i].start < c[j].start {
        assert c[j] == tail[j - 1];
        if i > 0 {
          assert c[i] == tail[i - 1];
        } else {
          assert c[j] in tail;
        }
      }
    } else {
      assert c == tail;
    }
  }

  lemma {:induction false} DaySlotsChronological(slotStart: int, dayEnd: int, duration: int, step: int,
                                                 bookings: seq<Booking>, now: int)
    requires step > 0 && duration <= step
    ensures Chronological(DaySlots(slotStart, dayEnd, duration, step, bookings, now))
    decreases dayEnd - slotStart
  {
    if slotStart < dayEnd {
      DaySlotsChronological(slotStart + step, dayEnd, duration, step, bookings, now);
      DaySlotsBounds(slotStart + step, dayEnd, duration, step, bookings, now);
      DaySlotsUnfold(slotStart, dayEnd, duration, step, bookings, now);
      PrependCandidate(Slot(slotStart, slotStart + duration), Accepted(slotStart, slotStart + duration, dayEnd, bookings, now),
                       DaySlots(slotStart + step, dayEnd, duration, step, bookings, now), slotStart + step);
    }
  }

  /** Every window of the template lies within its own day. */
  predicate WindowsWithinDay(template: Template)
  {
    forall d :: d in template && template[d].Some? ==>
      0 <= template[d].value.open && template[d].value.close <= MinutesPerDay
  }

  lemma DayContributionBounds(current: int, duration: int, bufferTime: int, template: Template,
                              bookings: seq<Booking>, now: int)
    requires duration + bufferTime > 0 && WindowsWithinDay(template)
    ensures forall s :: s in DayContribution(current, duration, bufferTime, template, bookings, now) ==>
              DayOf(current) * MinutesPerDay <= s.start < (DayOf(current) + 1) * MinutesPerDay
              && s.end <= (DayOf(current) + 1) * MinutesPerDay
  {
    var day := DayOf(current);
    match DayWindow(template, day)
    case None =>
    case Some(w) =>
      assert WeekdayOf(day) in template && template[WeekdayOf(day)] == Some(w);
      DaySlotsBounds(day * MinutesPerDay + w.open, day * MinutesPerDay + w.close,
                     duration, duration + bufferTime, bookings, now);
  }

  lemma {:induction false} RangeSlotsLowerBound(current: int, endDate: int, duration: int, bufferTime: int,
                                                template: Template, bookings: seq<Booking>, now: int)
    requires duration + bufferTime > 0 && WindowsWithinDay(template)
    ensures forall s :: s in RangeSlots(current, endDate, duration, bufferTime, template, bookings, now) ==>
              DayOf(current) * MinutesPerDay <= s.start
    decreases endDate - current
  {
    if current < endDate {
      DayContributionBounds(current, duration, bufferTime, template, bookings, now);
      RangeSlotsLowerBound(current + MinutesPerDay, endDate, duration, bufferTime, template, bookings, now);
      assert DayOf(current + MinutesPerDay) == DayOf(current) + 1;
    }
  }

  /** With a non-negative buffer and windows inside their days, the listing is in chronological
      order and no two emitted slots overlap. */
  lemma {:induction false} RangeSlotsChronological(current: int, endDate: int, duration: int, bufferTime: int,
                                                   template: Template, bookings: seq<Booking>, now: int)
    requires duration + bufferTime > 0 && bufferTime >= 0 && WindowsWithinDay(template)
    ensures Chronological(RangeSlots(current, endDate, duration, bufferTime, template, bookings, now))
    decreases endDate - current
  {
    if current < endDate {
      var next := current + MinutesPerDay;
      var today := DayContribution(current, duration, bufferTime, template, bookings, now);
      var rest := RangeSlots(next, endDate, duration, bufferTime, template, bookings, now);
      assert RangeSlots(current, endDate, duration, bufferTime, template, bookings, now) == today + rest;
      DayContributionChronological(current, duration, bufferTime, template, bookings, now);
      DayContributionBounds(current, duration, bufferTime, template, bookings, now);
      RangeSlotsLowerBound(next, endDate, duration, bufferTime, template, bookings, now);
      RangeSlotsChronological(next, endDate, duration, bufferTime, template, bookings, now);
      assert DayOf(next) == DayOf(current) + 1;
      forall x, y | x in today && y in rest ensures x.end <= y.start && x.start < y.start {
      }
      ChronologicalConcat(today, rest);
    }
  }

  lemma DayContributionChronological(current: int, duration: int, bufferTime: int, template: Template,
                                     bookings: seq<Booking>, now: int)
    requires duration + bufferTime > 0 && bufferTime >= 0
    ensures Chronological(DayContribution(current, duration, bufferTime, template, bookings, now))
  {
    var day := DayOf(current);
    if DayWindow(template, day).Some? {
      var w := DayWindow(template, day).value;
      var open, close := day * MinutesPerDay + w.open, day * MinutesPerDay + w.close;
      assert DayContribution(current, duration, bufferTime, template, bookings, now)
             == DaySlots(open, close, duration, duration + bufferTime, bookings, now);
      DaySlotsChronological(open, close, duration, duration + bufferTime, bookings, now);
    } else {
      assert DayContribution(current, duration, bufferTime, template, bookings, now) == [];
    }
  }

  /** With the default template, a 30-minute duration and a 15-minute buffer, a Monday without
      bookings opens with 09:00-09:30 followed by 09:45-10:15. Day 4 is Monday 1970-01-05. */
  lemma DefaultMondayExample(now: int)
    requires now < 4 * MinutesPerDay + 540
    ensures var out := RangeSlots(4 * MinutesPerDay, 5 * MinutesPerDay, DefaultMeetingDuration,
                                  DefaultBufferTime, DefaultTemplate, [], now);
            |out| >= 2 && out[0] == Slot(4 * MinutesPerDay + 540, 4 * MinutesPerDay + 570)
            && out[1] == Slot(4 * MinutesPerDay + 585, 4 * MinutesPerDay + 615)
  {
    var open := 4 * MinutesPerDay + 540;
    var close := 4 * MinutesPerDay + 1020;
    assert DayOf(4 * MinutesPerDay) == 4 && WeekdayOf(4) == Monday;
    assert DayWindow(DefaultTemplate, 4) == Some(Window(540, 1020));
    var rest := DaySlots(open + 90, close, 30, 45, [], now);
    assert DaySlots(open + 45, close, 30, 45, [], now) == [Slot(open + 45, open + 75)] + rest;
    assert DaySlots(open, close, 30, 45, [], now) == [Slot(open, open + 30)] + [Slot(open + 45, open + 75)] + rest;
    assert RangeSlots(5 * MinutesPerDay, 5 * MinutesPerDay, 30, 15, DefaultTemplate, [], now) == [];
  }
}
