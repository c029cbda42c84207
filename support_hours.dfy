/** The contact page's support-hours banner: whether support is open now
    and, when it is closed, when it opens next. Days are numbered as
    `getDay()` numbers them (0 is Sunday) and times are minutes since
    midnight. */
module SupportHours {
  import opened Wrappers
  import opened TimeFormat

  datatype Hours = Hours(start: nat, end: nat)

  /** The weekly schedule: 9:00–18:00 Monday to Friday, 10:00–16:00 on
      Saturday, closed on Sunday. */
  function WorkingHours(day: nat): (r: Option<Hours>)
    ensures r.Some? ==> r.value.start < r.value.end
  {
    if 1 <= day <= 5 then Some(Hours(9 * 60, 18 * 60))
    else if day == 6 then Some(Hours(10 * 60, 16 * 60))
    else None
  }

  const DayNames := ["Sunday", "Monday", "Tuesday", "Wednesday", "Thursday", "Friday", "Saturday"]

  datatype SupportStatus = SupportStatus(isOpen: bool, message: string, nextOpenTime: string)

  /** Support answers on `day` at `time`. */
  predicate OpenAt(day: nat, time: nat) {
    WorkingHours(day).Some? && WorkingHours(day).value.start <= time < WorkingHours(day).value.end
  }

  /** Today's hours have not begun yet. */
  predicate BeforeOpening(day: nat, time: nat) {
    WorkingHours(day).Some? && time < WorkingHours(day).value.start
  }

  /** The weekday `f` days after `day`. */
  function DayAfter(day: nat, f: nat): nat {
    (day + f) % 7
  }

  /** Stepping one more day wraps round the week. */
  lemma DayAfterStep(day: nat, f: nat)
    requires day < 7 && f < 7
    ensures (DayAfter(day, f) + 1) % 7 == DayAfter(day, f + 1)
  {
    if day + f < 7 {
      assert DayAfter(day, f) == day + f;
    } else {
      assert DayAfter(day, f) == day + f - 7;
      assert DayAfter(day, f + 1) == day + f + 1 - 7;
    }
  }

  /** The first working day `d` or more days after `day`, looking at most a
      week ahead (a week of closed days would end back on `day`). */
  function FirstWorkingAfter(day: nat, d: nat): (r: nat)
    requires day < 7 && 1 <= d <= 7
    ensures r < 7
    decreases 7 - d
  {
    if d == 7 || WorkingHours(DayAfter(day, d)).Some? then DayAfter(day, d) else FirstWorkingAfter(day, d + 1)
  }

  /** The day support opens next: today when today's hours are still to come,
      otherwise the first later working day. */
  function NextOpenDay(day: nat, time: nat): nat
    requires day < 7
  {
    if BeforeOpening(day, time) then day else FirstWorkingAfter(day, 1)
  }

  function NextOpenMessage(next: nat, day: nat, openTime: string): string
    requires next < 7
  {
    if next == day then "We'll be back today at " + openTime
    else if next == (day + 1) % 7 then "We'll be back tomorrow at " + openTime
    else "We'll be back on " + DayNames[next] + " at " + openTime
  }

  /** The banner for `day` at `time`. */
  function StatusAt(day: nat, time: nat): SupportStatus
    requires day < 7
  {
    if OpenAt(day, time) then
      SupportStatus(true, "We're currently open! Closing at " + FormatTime(WorkingHours(day).value.end), "")
    else
      var next := NextOpenDay(day, time);
      var start := if WorkingHours(next).Some? then WorkingHours(next).value.start else 0;
      SupportStatus(false, "We're currently closed.", NextOpenMessage(next, day, FormatTime(start)))
  }

  /** checkSupportAvailability: the closed case walks forward one day at a
      time, at most seven times, until it meets a working day. */
  method CheckSupportAvailability(currentDay: nat, currentTime: nat) returns (status: SupportStatus)
    requires currentDay < 7
    ensures status == StatusAt(currentDay, currentTime)
  {
    var todayHours := WorkingHours(currentDay);
    if todayHours.Some? && currentTime >= todayHours.value.start && currentTime < todayHours.value.end {
      return SupportStatus(true, "We're currently open! Closing at " + FormatTime(todayHours.value.end), "");
    }
    assert !OpenAt(currentDay, currentTime);
    ghost var before := BeforeOpening(currentDay, currentTime);
    ghost var next := NextOpenDay(currentDay, currentTime);
    var nextOpenDayIndex := currentDay;
    var daysChecked := 0;
    while daysChecked < 7
      invariant 0 <= daysChecked <= 7
      invariant nextOpenDayIndex == DayAfter(currentDay, daysChecked)
      invariant before ==> daysChecked == 0
      invariant !before && daysChecked < 7 ==> FirstWorkingAfter(currentDay, daysChecked + 1) == next
      invariant daysChecked == 7 ==> !before && nextOpenDayIndex == next
      decreases 7 - daysChecked
    {
      if todayHours.Some? && currentTime < todayHours.value.start {
        assert nextOpenDayIndex == next;
        break;
      }
      nextOpenDayIndex := (nextOpenDayIndex + 1) % 7;
      DayAfterStep(currentDay, daysChecked);
      if WorkingHours(nextOpenDayIndex).Some? {
        assert nextOpenDayIndex == FirstWorkingAfter(currentDay, daysChecked + 1) == next;
        break;
      }
      assert daysChecked + 1 < 7 ==>
               FirstWorkingAfter(currentDay, daysChecked + 1) == FirstWorkingAfter(currentDay, daysChecked + 2);
      daysChecked := daysChecked + 1;
    }
    assert nextOpenDayIndex == next;
    NextOpenIsWorkingDay(currentDay, currentTime);
    var nextDayHours := WorkingHours(nextOpenDayIndex).value;
    var openTime := FormatTime(nextDayHours.start);
    var nextOpenMessage := "We'll be back on " + DayNames[nextOpenDayIndex] + " at " + openTime;
    if nextOpenDayIndex == currentDay {
      nextOpenMessage := "We'll be back today at " + openTime;
      assert nextOpenMessage == NextOpenMessage(next, currentDay, openTime);
    } else if nextOpenDayIndex == (currentDay + 1) % 7 {
      nextOpenMessage := "We'll be back tomorrow at " + openTime;
      assert nextOpenMessage == NextOpenMessage(next, currentDay, openTime);
    } else {
      assert nextOpenMessage == NextOpenMessage(next, currentDay, openTime);
    }
    status := SupportStatus(false, "We're currently closed.", nextOpenMessage);
  }

  // ---------------------------------------------------------------- lemmas

  /** Support is open exactly within the day's hours: Monday to Friday from
      9:00 to before 18:00, Saturday from 10:00 to before 16:00, never on Sunday. */
  lemma OpenExactlyInHours(day: nat, time: nat)
    requires day < 7
    ensures StatusAt(day, time).isOpen <==> OpenAt(day, time)
    ensures OpenAt(day, time) <==>
              (1 <= day <= 5 && 540 <= time < 1080) || (day == 6 && 600 <= time < 960)
  {
  }

  /** While open, the banner names the closing time of the day. */
  lemma OpenNamesClosingTime(day: nat, time: nat)
    requires day < 7 && OpenAt(day, time)
    ensures StatusAt(day, time).message == "We're currently open! Closing at " + FormatTime(WorkingHours(day).value.end)
    ensures StatusAt(day, time).nextOpenTime == ""
  {
  }

  /** The search ends on a working day, and every day it passes over is closed. */
  lemma FirstWorkingAfterIsFirst(day: nat, d: nat)
    requires day < 7 && 1 <= d < 7
    ensures WorkingHours(FirstWorkingAfter(day, d)).Some?
    ensures exists e :: d <= e <= 7 && FirstWorkingAfter(day, d) == DayAfter(day, e)
                        && forall f :: d <= f < e ==> WorkingHours(DayAfter(day, f)).None?
  {
    if WorkingHours(DayAfter(day, d)).Some? {
      assert FirstWorkingAfter(day, d) == DayAfter(day, d);
    } else {
      assert DayAfter(day, d) == 0 && DayAfter(day, d + 1) == 1;
      assert FirstWorkingAfter(day, d) == DayAfter(day, d + 1);
    }
  }

  /** When closed, the next opening is today (only before the day's hours)
      or else the first working day after today; either way a working day. */
  lemma NextOpenIsWorkingDay(day: nat, time: nat)
    requires day < 7 && !OpenAt(day, time)
    ensures WorkingHours(NextOpenDay(day, time)).Some?
    ensures NextOpenDay(day, time) == day <==> BeforeOpening(day, time)
    ensures !BeforeOpening(day, time) ==>
              exists e :: 1 <= e <= 2 && NextOpenDay(day, time) == DayAfter(day, e)
                          && forall f :: 1 <= f < e ==> WorkingHours(DayAfter(day, f)).None?
  {
    if !BeforeOpening(day, time) {
      FirstWorkingAfterIsFirst(day, 1);
      if WorkingHours(DayAfter(day, 1)).Some? {
        assert FirstWorkingAfter(day, 1) == DayAfter(day, 1);
      } else {
        assert DayAfter(day, 1) == 0 && DayAfter(day, 2) == 1;
        assert FirstWorkingAfter(day, 1) == DayAfter(day, 2);
      }
    }
  }

  /** On Saturday after closing, and all Sunday, support is next open on Monday at 9:00. */
  lemma WeekendNextOpensMonday(day: nat, time: nat)
    requires (day == 6 && time >= 960) || day == 0
    ensures NextOpenDay(day, time) == 1
    ensures day == 6 ==> StatusAt(day, time).nextOpenTime == "We'll be back on " + "Monday" + " at " + FormatTime(540)
    ensures day == 0 ==> StatusAt(day, time).nextOpenTime == "We'll be back tomorrow at " + FormatTime(540)
  {
    if day == 6 {
      assert FirstWorkingAfter(6, 1) == FirstWorkingAfter(6, 2) == 1;
    }
  }

  /** The closed banner says "today" exactly when the next opening is today,
      "tomorrow" exactly when it is the following day, and otherwise names the day. */
  lemma ClosedMessageNamesTheDay(day: nat, time: nat)
    requires day < 7 && !OpenAt(day, time)
    ensures var next := NextOpenDay(day, time);
            var openTime := FormatTime(WorkingHours(next).value.start);
            var msg := StatusAt(day, time).nextOpenTime;
            (next == day ==> msg == "We'll be back today at " + openTime)
            && (next != day && next == (day + 1) % 7 ==> msg == "We'll be back tomorrow at " + openTime)
            && (next != day && next != (day + 1) % 7 ==> msg == "We'll be back on " + DayNames[next] + " at " + openTime)
            && StatusAt(day, time).message == "We're currently closed."
  {
    NextOpenIsWorkingDay(day, time);
  }
}
