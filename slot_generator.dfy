/** The booking page's schedule: for each of the next seven days, the
    half-hour slots from the day's start up to (not including) 21:00 whose
    time label is not yet in the doctor's ledger for that day.

    A time of day is a number of minutes since midnight. The page's clock
    ("now" as hour and minute), the calendar dates of the seven days and the
    locale's `toLocaleTimeString` rendering of a time (`render`) are inputs. */
module SlotGenerator {
  import opened Wrappers
  import opened JsText
  import opened SlotLedger
  import opened TimeFormat
  import opened DateLabels

  const OpeningTime := 10 * 60
  const EndTime := 21 * 60
  const SlotLength := 30

  /** One offered slot: its day (`datetime`), its time of day and the time
      label sent to the backend. */
  datatype TimeSlot = TimeSlot(date: CalendarDate, minutes: int, time: string)

  /** The label shown for a slot (`displayTime`). */
  function DisplayTime(s: TimeSlot): string {
    FormatTimeTo12Hour(s.time)
  }

  /** Today's first candidate: the next hour once past ten o'clock (ten o'clock
      otherwise), at half past when the current minute is past 30. */
  function TodayStart(h: nat, m: nat): int {
    (if h > 10 then h + 1 else 10) * 60 + (if m > 30 then 30 else 0)
  }

  /** The first candidate of day `i` (0 is today). */
  function DayStart(i: nat, h: nat, m: nat): int {
    if i == 0 then TodayStart(h, m) else OpeningTime
  }

  /** The candidate times from `t` in steps of half an hour, before 21:00. */
  function Candidates(t: int): seq<int>
    decreases EndTime - t
  {
    if t >= EndTime then [] else [t] + Candidates(t + SlotLength)
  }

  function MakeSlot(date: CalendarDate, t: int, render: int -> string): TimeSlot {
    TimeSlot(date, t, render(t))
  }

  /** The candidates from `t` whose label is not in `booked`, as slots. */
  function DaySlots(date: CalendarDate, t: int, booked: seq<string>, render: int -> string): seq<TimeSlot>
    decreases EndTime - t
  {
    if t >= EndTime then []
    else (if render(t) in booked then [] else [MakeSlot(date, t, render)]) + DaySlots(date, t + SlotLength, booked, render)
  }

  /** The slots the page offers on day `i`. */
  function Schedule(i: nat, h: nat, m: nat, date: CalendarDate, slots: Slots, render: int -> string): seq<TimeSlot> {
    DaySlots(date, DayStart(i, h, m), Booked(slots, DateLabel(date)), render)
  }

  /** getAvailableSolts: a list of slots per day, each day filled by stepping
      a clock through the day. */
  method GetAvailableSlots(h: nat, m: nat, dates: seq<CalendarDate>, slots: Slots, render: int -> string)
    returns (docSlots: seq<seq<TimeSlot>>)
    requires h < 24 && m < 60 && |dates| == 7
    ensures |docSlots| == 7
    ensures forall i :: 0 <= i < 7 ==> docSlots[i] == Schedule(i, h, m, dates[i], slots, render)
  {
    docSlots := [];
    for i := 0 to 7
      invariant |docSlots| == i
      invariant forall j :: 0 <= j < i ==> docSlots[j] == Schedule(j, h, m, dates[j], slots, render)
    {
      var currentDate := if i == 0 then TodayStart(h, m) else OpeningTime;
      var slotDate := DateLabel(dates[i]);
      ghost var booked := Booked(slots, slotDate);
      var timeSlots: seq<TimeSlot> := [];
      while currentDate < EndTime
        invariant timeSlots + DaySlots(dates[i], currentDate, booked, render)
                  == DaySlots(dates[i], DayStart(i, h, m), booked, render)
        decreases EndTime - currentDate
      {
        var formattedTime := render(currentDate);
        var isSlotAvailable := !(slotDate in slots && formattedTime in slots[slotDate]);
        assert isSlotAvailable <==> formattedTime !in booked;
        ghost var rest := DaySlots(dates[i], currentDate + SlotLength, booked, render);
        DaySlotsStep(dates[i], currentDate, booked, render);
        if isSlotAvailable {
          var slot := TimeSlot(dates[i], currentDate, formattedTime);
          assert slot == MakeSlot(dates[i], currentDate, render);
          AppendAssociates(timeSlots, [slot], rest);
          timeSlots := timeSlots + [slot];
        } else {
          assert [] + rest == rest;
        }
        currentDate := currentDate + SlotLength;
      }
      assert timeSlots + [] == timeSlots;
      assert timeSlots == Schedule(i, h, m, dates[i], slots, render);
      docSlots := docSlots + [timeSlots];
    }
  }

  // ---------------------------------------------------------------- lemmas

  lemma AppendAssociates<T>(a: seq<T>, b: seq<T>, c: seq<T>)
    ensures (a + b) + c == a + (b + c)
  {
  }

  lemma DaySlotsStep(date: CalendarDate, t: int, booked: seq<string>, render: int -> string)
    requires t < EndTime
    ensures DaySlots(date, t, booked, render)
            == (if render(t) in booked then [] else [MakeSlot(date, t, render)])
               + DaySlots(date, t + SlotLength, booked, render)
  {
  }

  /** The candidates from `t` are `t`, `t + 30`, … up to the last one before 21:00. */
  lemma {:induction false} CandidatesShape(t: int)
    ensures |Candidates(t)| == if t >= EndTime then 0 else (EndTime - t + SlotLength - 1) / SlotLength
    ensures forall k :: 0 <= k < |Candidates(t)| ==> Candidates(t)[k] == t + SlotLength * k
    decreases EndTime - t
  {
    if t < EndTime {
      CandidatesShape(t + SlotLength);
      var c := Candidates(t);
      forall k | 0 < k < |c| ensures c[k] == t + SlotLength * k {
        assert c[k] == Candidates(t + SlotLength)[k - 1];
      }
    }
  }

  /** A day other than today offers at most the 22 candidates 10:00, 10:30, …, 20:30. */
  lemma FutureDayCandidates()
    ensures |Candidates(OpeningTime)| == 22
    ensures Candidates(OpeningTime)[0] == 10 * 60 && Candidates(OpeningTime)[21] == 20 * 60 + 30
    ensures forall k :: 0 <= k < 22 ==> Candidates(OpeningTime)[k] == OpeningTime + SlotLength * k < EndTime
  {
    CandidatesShape(OpeningTime);
  }

  /** Today starts no earlier than ten o'clock and on the hour or the half hour. */
  lemma TodayStartOnTheGrid(h: nat, m: nat)
    ensures TodayStart(h, m) >= OpeningTime && TodayStart(h, m) % SlotLength == 0
  {
    var hour := if h > 10 then h + 1 else 10;
    var halves := 2 * hour + (if m > 30 then 1 else 0);
    assert TodayStart(h, m) == SlotLength * halves;
  }

  /** Every slot of a day is the slot of one of its candidates whose label is
      free, and every such candidate has its slot. */
  lemma {:induction false} DaySlotsMembers(date: CalendarDate, t: int, booked: seq<string>, render: int -> string,
                                           s: TimeSlot)
    ensures s in DaySlots(date, t, booked, render)
            <==> s == MakeSlot(date, s.minutes, render) && s.minutes in Candidates(t) && render(s.minutes) !in booked
    decreases EndTime - t
  {
    if t < EndTime {
      DaySlotsMembers(date, t + SlotLength, booked, render, s);
    }
  }

  /** The times of a day's slots strictly increase. */
  lemma {:induction false} DaySlotsAscending(date: CalendarDate, t: int, booked: seq<string>, render: int -> string,
                                             a: nat, b: nat)
    requires a < b < |DaySlots(date, t, booked, render)|
    ensures DaySlots(date, t, booked, render)[a].minutes < DaySlots(date, t, booked, render)[b].minutes
    decreases EndTime - t
  {
    var ds := DaySlots(date, t, booked, render);
    var rest := DaySlots(date, t + SlotLength, booked, render);
    DaySlotsStep(date, t, booked, render);
    if render(t) in booked {
      assert ds == rest;
      DaySlotsAscending(date, t + SlotLength, booked, render, a, b);
    } else {
      assert ds == [MakeSlot(date, t, render)] + rest;
      assert ds[b] == rest[b - 1];
      if a == 0 {
        DaySlotsFrom(date, t + SlotLength, booked, render, b - 1);
      } else {
        assert ds[a] == rest[a - 1];
        DaySlotsAscending(date, t + SlotLength, booked, render, a - 1, b - 1);
      }
    }
  }

  /** No slot of a day comes before its first candidate. */
  lemma {:induction false} DaySlotsFrom(date: CalendarDate, t: int, booked: seq<string>, render: int -> string, k: nat)
    requires k < |DaySlots(date, t, booked, render)|
    ensures DaySlots(date, t, booked, render)[k].minutes >= t
    decreases EndTime - t
  {
    var rest := DaySlots(date, t + SlotLength, booked, render);
    if render(t) in booked {
      DaySlotsFrom(date, t + SlotLength, booked, render, k);
    } else if k > 0 {
      assert DaySlots(date, t, booked, render)[k] == rest[k - 1];
      DaySlotsFrom(date, t + SlotLength, booked, render, k - 1);
    }
  }

  /** From eight in the evening on, today offers nothing. */
  lemma NothingLateToday(h: nat, m: nat, date: CalendarDate, slots: Slots, render: int -> string)
    requires 20 <= h < 24 && m < 60
    ensures Schedule(0, h, m, date, slots, render) == []
  {
  }

  /** Booking one label of a day and regenerating the schedule removes exactly
      the slot with that label from that day (time labels are distinct for
      distinct times). */
  lemma BookingRemovesSlot(i: nat, h: nat, m: nat, date: CalendarDate, slots: Slots, render: int -> string,
                           t0: int, s: TimeSlot)
    requires forall a, b :: render(a) == render(b) ==> a == b
    requires Reserve(slots, DateLabel(date), render(t0)).Some?
    ensures var after := Reserve(slots, DateLabel(date), render(t0)).value;
            s in Schedule(i, h, m, date, after, render)
            <==> s in Schedule(i, h, m, date, slots, render) && s.minutes != t0
  {
    var before := Booked(slots, DateLabel(date));
    var after := Reserve(slots, DateLabel(date), render(t0)).value;
    assert Booked(after, DateLabel(date)) == before + [render(t0)];
    DaySlotsMembers(date, DayStart(i, h, m), before, render, s);
    DaySlotsMembers(date, DayStart(i, h, m), before + [render(t0)], render, s);
  }

  /** A booking on one day leaves the schedule of every other day as it was. */
  lemma BookingKeepsOtherDays(i: nat, h: nat, m: nat, date: CalendarDate, other: CalendarDate, slots: Slots,
                              render: int -> string, time: string)
    requires other != date
    requires Reserve(slots, DateLabel(other), time).Some?
    ensures Schedule(i, h, m, date, Reserve(slots, DateLabel(other), time).value, render)
            == Schedule(i, h, m, date, slots, render)
  {
    if DateLabel(date) == DateLabel(other) {
      DateLabelInjective(date, other);
    }
  }

  // ------------------------------------------------------- booking request

  /** What the page's bookAppointment does: send to the login page, warn that
      no time is chosen, fail on a day without slots (`docSlots[slotIndex][0]`
      is undefined), or post the booking. */
  datatype BookAction = RedirectToLogin | WarnNoTime | PageError | Post(slotDate: string, slotTime: string)

  function BookRequest(token: string, slotTime: string, docSlots: seq<seq<TimeSlot>>, slotIndex: nat): (r: BookAction)
    ensures r.Post? <==> token != "" && slotTime != "" && slotIndex < |docSlots| && docSlots[slotIndex] != []
    ensures token == "" ==> r == RedirectToLogin
    ensures token != "" && slotTime == "" ==> r == WarnNoTime
    ensures r.Post? ==> r.slotTime == slotTime && r.slotDate == DateLabel(docSlots[slotIndex][0].date)
  {
    if token == "" then RedirectToLogin
    else if slotTime == "" then WarnNoTime
    else if slotIndex >= |docSlots| || docSlots[slotIndex] == [] then PageError
    else Post(DateLabel(docSlots[slotIndex][0].date), slotTime)
  }

  /** On a generated schedule the posted day is the day of the selected tab. */
  lemma PostedDayIsSelectedDay(token: string, slotTime: string, h: nat, m: nat, dates: seq<CalendarDate>,
                               slots: Slots, render: int -> string, docSlots: seq<seq<TimeSlot>>, slotIndex: nat)
    requires |dates| == 7 && |docSlots| == 7
    requires forall i :: 0 <= i < 7 ==> docSlots[i] == Schedule(i, h, m, dates[i], slots, render)
    requires BookRequest(token, slotTime, docSlots, slotIndex).Post?
    ensures BookRequest(token, slotTime, docSlots, slotIndex).slotDate == DateLabel(dates[slotIndex])
  {
    var s := docSlots[slotIndex][0];
    DaySlotsMembers(dates[slotIndex], DayStart(slotIndex, h, m),
                    Booked(slots, DateLabel(dates[slotIndex])), render, s);
  }

  // ------------------------------------------------------ today's first slot

  /** From 10:01 to 10:59 today's first slot is already over (at 10:45 it is
      10:30): the start moves to the next hour only from eleven o'clock on, so
      today's schedule offers that past slot unless its label is booked. */
  lemma TodayStartInThePast(m: nat, date: CalendarDate, slots: Slots, render: int -> string)
    requires 0 < m < 60 && render(TodayStart(10, m)) !in Booked(slots, DateLabel(date))
    ensures TodayStart(10, 45) == 10 * 60 + 30 < 10 * 60 + 45
    ensures TodayStart(10, m) < 10 * 60 + m
    ensures MakeSlot(date, TodayStart(10, m), render) in Schedule(0, 10, m, date, slots, render)
  {
    DaySlotsStep(date, TodayStart(10, m), Booked(slots, DateLabel(date)), render);
  }

  /** The start with the hour test taken from ten o'clock on. */
  function TodayStartFixed(h: nat, m: nat): int {
    (if h >= 10 then h + 1 else 10) * 60 + (if m > 30 then 30 else 0)
  }

  /** With that test, every slot offered today lies after the present minute. */
  lemma TodayStartFixedNotPast(h: nat, m: nat, date: CalendarDate, booked: seq<string>, render: int -> string)
    requires h < 24 && m < 60
    ensures TodayStartFixed(h, m) > h * 60 + m || (h < 10 && TodayStartFixed(h, m) == OpeningTime)
    ensures TodayStartFixed(h, m) >= OpeningTime && TodayStartFixed(h, m) % SlotLength == 0
    ensures forall k :: 0 <= k < |DaySlots(date, TodayStartFixed(h, m), booked, render)| ==>
              DaySlots(date, TodayStartFixed(h, m), booked, render)[k].minutes > h * 60 + m
  {
    forall k | 0 <= k < |DaySlots(date, TodayStartFixed(h, m), booked, render)|
      ensures DaySlots(date, TodayStartFixed(h, m), booked, render)[k].minutes > h * 60 + m
    {
      DaySlotsFrom(date, TodayStartFixed(h, m), booked, render, k);
    }
  }
}
