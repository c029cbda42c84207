/** The two clock renderings of the application.

    `formatTimeTo12Hour` turns a stored slot time such as "14:30" into "2:30 PM"
    and leaves a label that already carries AM/PM alone. The patient pages
    (Appointment.jsx, MyAppointments.jsx) and the panel pages (AllAppointments.jsx,
    Dashboard.jsx, DoctorDashboard.jsx, DoctorAppointments.jsx) each hold an
    identical copy; it is modelled once here.

    `formatTime` of the contact page renders a count of minutes after midnight. */
module TimeFormat {
  import opened JsText
  import opened Wrappers

  /** `time24.toString().toLowerCase()` includes "am" or "pm". */
  predicate MentionsMeridiem(s: string) {
    ContainsPair(Lower(s), 'a', 'm') || ContainsPair(Lower(s), 'p', 'm')
  }

  /** `minutes || '00'`, where `[hours, minutes] = timeStr.split(':')`. */
  function MinutesPart(parts: seq<string>): string {
    if |parts| > 1 && parts[1] != "" then parts[1] else "00"
  }

  /** The hour on a 12-hour dial: `h % 12 || 12`. */
  function Hour12(h: nat): (r: nat)
    ensures 1 <= r <= 12
  {
    if h % 12 == 0 then 12 else h % 12
  }

  /** The dial hour and the half of the day give the hour back. */
  lemma Hour12OnTheDial(h: nat)
    requires h < 24
    ensures Hour12(h) % 12 + (if Meridiem(h) == "PM" then 12 else 0) == h
  {
    if h < 12 {
      assert h % 12 == h;
      assert Meridiem(h)[0] != "PM"[0];
    } else {
      assert h % 12 == h - 12;
    }
  }

  function Meridiem(h: nat): string {
    if h < 12 then "AM" else "PM"
  }

  /** formatTimeTo12Hour: an empty value or a label mentioning am/pm is returned
      as it is; otherwise the part before the first ':' is read with parseInt and
      the part after it (or "00") is kept as the minutes. */
  function FormatTimeTo12Hour(time24: string): string {
    if time24 == "" then time24
    else if MentionsMeridiem(time24) then time24
    else
      var parts := Split(Lower(time24), ':');
      HourLabel(ParseInt(parts[0]), MinutesPart(parts))
  }

  /** The if-chain of formatTimeTo12Hour on the parsed hour `hour24` and the
      minutes text `min`; NaN fails every comparison and renders as "NaN". */
  function HourLabel(hour24: JsNumber, min: string): string {
    match hour24
    case Num(h) =>
      if h == 0 then "12:" + min + " AM"
      else if h < 12 then IntToString(h) + ":" + min + " AM"
      else if h == 12 then "12:" + min + " PM"
      else IntToString(h - 12) + ":" + min + " PM"
    case NaN => "NaN:" + min + " PM"
  }

  /** For an hour of the day the if-chain is the 12-hour dial. */
  lemma HourLabelOfDayHour(h: nat, min: string)
    requires h < 24
    ensures HourLabel(Num(h), min) == NatToString(Hour12(h)) + ":" + min + " " + Meridiem(h)
  {
    if h == 0 || h == 12 {
      HourLabelAtTwelve(h, min);
    } else if h < 12 {
      HourLabelMorning(h, min);
    } else {
      HourLabelAfternoon(h, min);
    }
  }

  lemma HourLabelAtTwelve(h: nat, min: string)
    requires h == 0 || h == 12
    ensures HourLabel(Num(h), min) == NatToString(Hour12(h)) + ":" + min + " " + Meridiem(h)
  {
    assert NatToString(12) == "12" by {
      assert NatToString(12) == NatToString(1) + [DigitChar(2)];
    }
  }

  lemma HourLabelMorning(h: nat, min: string)
    requires 0 < h < 12
    ensures HourLabel(Num(h), min) == NatToString(Hour12(h)) + ":" + min + " " + Meridiem(h)
  {
    assert Hour12(h) == h && Meridiem(h) == "AM";
    assert HourLabel(Num(h), min) == IntToString(h) + ":" + min + " AM";
    assert IntToString(h) == NatToString(h);
  }

  lemma HourLabelAfternoon(h: nat, min: string)
    requires 12 < h < 24
    ensures HourLabel(Num(h), min) == NatToString(Hour12(h)) + ":" + min + " " + Meridiem(h)
  {
    assert Hour12(h) == h - 12;
  }

  /** Whatever the hour text, the if-chain ends in " AM" or " PM". */
  lemma HourLabelSuffix(hour24: JsNumber, min: string)
    ensures var r := HourLabel(hour24, min);
            |r| >= 3 && (r[|r| - 3..] == " AM" || r[|r| - 3..] == " PM")
  {
  }

  /** An empty value or a label mentioning am/pm passes through unchanged; any
      other value comes out as a label ending in " AM" or " PM". */
  lemma FormatTimeTo12HourShape(time24: string)
    ensures time24 == "" || MentionsMeridiem(time24) ==> FormatTimeTo12Hour(time24) == time24
    ensures time24 != "" && !MentionsMeridiem(time24) ==>
              var r := FormatTimeTo12Hour(time24);
              |r| >= 3 && (r[|r| - 3..] == " AM" || r[|r| - 3..] == " PM")
  {
    if time24 != "" && !MentionsMeridiem(time24) {
      var parts := Split(Lower(time24), ':');
      HourLabelSuffix(ParseInt(parts[0]), MinutesPart(parts));
    }
  }

  /** Every result of formatTimeTo12Hour mentions AM or PM, so formatting a
      formatted label changes nothing. */
  lemma FormatTimeTo12HourIdempotent(time24: string)
    ensures FormatTimeTo12Hour(FormatTimeTo12Hour(time24)) == FormatTimeTo12Hour(time24)
  {
    FormatTimeTo12HourShape(time24);
    if time24 != "" && !MentionsMeridiem(time24) {
      MeridiemSuffixMentioned(FormatTimeTo12Hour(time24));
    }
  }

  /** A text ending in " AM" or " PM" mentions am/pm once lower-cased. */
  lemma MeridiemSuffixMentioned(r: string)
    requires |r| >= 3 && (r[|r| - 3..] == " AM" || r[|r| - 3..] == " PM")
    ensures MentionsMeridiem(r)
  {
    var l := Lower(r);
    var i := |r| - 2;
    assert r[i..] == r[|r| - 3..][1..];
    LowerAt(r, i);
    LowerAt(r, i + 1);
    ContainsPairAt(l, i, l[i], 'm');
  }

  /** A string of digits and colons never mentions am/pm. */
  lemma ClockDigitsHaveNoMeridiem(s: string)
    requires forall i :: 0 <= i < |s| ==> IsDigit(s[i]) || s[i] == ':'
    ensures !MentionsMeridiem(s)
  {
    LowerOfClockDigits(s);
    NoPairWithout(s, 'a', 'm');
    NoPairWithout(s, 'p', 'm');
  }

  lemma LowerOfClockDigits(s: string)
    requires forall i :: 0 <= i < |s| ==> IsDigit(s[i]) || s[i] == ':'
    ensures Lower(s) == s
  {
    LowerOfNoCapitals(s);
  }

  /** The if-chain applies to the pieces of the lower-cased text. */
  lemma FormatTimeTo12HourOfPieces(time24: string, parts: seq<string>)
    requires time24 != "" && !MentionsMeridiem(time24)
    requires Split(Lower(time24), ':') == parts
    ensures FormatTimeTo12Hour(time24) == HourLabel(ParseInt(parts[0]), MinutesPart(parts))
  {
  }

  /** "H:M" assembled from digit strings is made of digits and one colon. */
  lemma ClockText(hs: string, ms: string)
    requires AllDigits(hs) && AllDigits(ms)
    ensures var s := hs + ":" + ms;
            forall i :: 0 <= i < |s| ==> IsDigit(s[i]) || s[i] == ':'
  {
    var s := hs + ":" + ms;
    forall i | 0 <= i < |s| ensures IsDigit(s[i]) || s[i] == ':' {
      if i < |hs| { assert s[i] == hs[i]; }
      else if i > |hs| { assert s[i] == ms[i - |hs| - 1]; }
    }
  }

  /** The hour mapping for a well-formed "H:MM" input with an hour from 0 to 23:
      hour 0 reads "12 AM", 1 to 11 keep their number with AM, 12 reads "12 PM"
      and 13 to 23 lose twelve with PM. An empty minutes part becomes "00". */
  lemma TwentyFourHourLabel(hs: string, ms: string)
    requires |hs| > 0 && AllDigits(hs) && AllDigits(ms)
    requires DigitsValue(hs) < 24
    ensures FormatTimeTo12Hour(hs + ":" + ms)
            == NatToString(Hour12(DigitsValue(hs))) + ":" + MinutesPart([hs, ms])
               + " " + Meridiem(DigitsValue(hs))
  {
    var s := hs + ":" + ms;
    ClockText(hs, ms);
    ClockDigitsHaveNoMeridiem(s);
    LowerOfClockDigits(s);
    DigitsExclude(hs, ':');
    DigitsExclude(ms, ':');
    assert s == hs + [':'] + ms;
    SplitAt(hs, ':', ms);
    SplitWithout(ms, ':');
    FormatTimeTo12HourOfPieces(s, [hs, ms]);
    ParseIntOfDigits(hs);
    HourLabelOfDayHour(DigitsValue(hs), if ms == "" then "00" else ms);
  }

  /** An hour given without minutes ("9") is shown on the hour ("9:00 AM"). */
  lemma HourOnlyLabel(hs: string)
    requires |hs| > 0 && AllDigits(hs)
    requires DigitsValue(hs) < 24
    ensures FormatTimeTo12Hour(hs)
            == NatToString(Hour12(DigitsValue(hs))) + ":" + "00" + " " + Meridiem(DigitsValue(hs))
  {
    ClockDigitsHaveNoMeridiem(hs);
    LowerOfClockDigits(hs);
    DigitsExclude(hs, ':');
    SplitWithout(hs, ':');
    assert MinutesPart([hs]) == "00";
    FormatTimeTo12HourOfPieces(hs, [hs]);
    ParseIntOfDigits(hs);
    HourLabelOfDayHour(DigitsValue(hs), "00");
  }

  /** formatTime of the contact page: minutes after midnight as "H:MM AM/PM". */
  function FormatTime(totalMinutes: nat): (r: string)
    ensures |r| >= 7
  {
    var hours := totalMinutes / 60;
    var minutes := totalMinutes % 60;
    var ampm := if hours >= 12 then "PM" else "AM";
    var formattedHours := if hours % 12 == 0 then 12 else hours % 12;
    NatToString(formattedHours) + ":" + Pad2(minutes) + " " + ampm
  }

  /** Reads a label "H:MM AM" or "H:MM PM" (H of one or two digits, from 1 to
      12) back into minutes after midnight; an independent reference for both
      renderings. */
  function ReadClock(text: string): (r: Option<nat>)
    ensures r.Some? ==> r.value < 24 * 60
  {
    var n := |text| - 6;
    if n < 1 || n > 2 || !AllDigits(text[..n]) || text[n] != ':'
       || !AllDigits(text[n + 1..n + 3]) || text[n + 3] != ' ' then None
    else
      var h12 := DigitsValue(text[..n]);
      var mm := DigitsValue(text[n + 1..n + 3]);
      var ap := text[n + 4..];
      if !(1 <= h12 <= 12) || mm >= 60 || (ap != "AM" && ap != "PM") then None
      else Some(((h12 % 12) + (if ap == "PM" then 12 else 0)) * 60 + mm)
  }

  /** ReadClock of a text whose slices are an hour, ':', two minute digits, ' '
      and a meridiem. */
  lemma ReadClockOfSlices(text: string, hs: string, mm: string, ap: string)
    requires 1 <= |hs| <= 2 && |text| == |hs| + 6
    requires text[..|hs|] == hs && text[|hs|] == ':' && text[|hs| + 1..|hs| + 3] == mm
    requires text[|hs| + 3] == ' ' && text[|hs| + 4..] == ap
    requires AllDigits(hs) && 1 <= DigitsValue(hs) <= 12
    requires AllDigits(mm) && DigitsValue(mm) < 60
    requires ap == "AM" || ap == "PM"
    ensures ReadClock(text)
            == Some((DigitsValue(hs) % 12 + (if ap == "PM" then 12 else 0)) * 60 + DigitsValue(mm))
  {
  }

  /** ReadClock on a label assembled from its parts. */
  lemma ReadClockOfParts(hs: string, mm: string, ap: string)
    requires 1 <= |hs| <= 2 && AllDigits(hs) && 1 <= DigitsValue(hs) <= 12
    requires |mm| == 2 && AllDigits(mm) && DigitsValue(mm) < 60
    requires ap == "AM" || ap == "PM"
    ensures ReadClock(hs + ":" + mm + " " + ap)
            == Some((DigitsValue(hs) % 12 + (if ap == "PM" then 12 else 0)) * 60 + DigitsValue(mm))
  {
    var text := hs + ":" + mm + " " + ap;
    var tail := ":" + mm + " " + ap;
    var n := |hs|;
    assert text == hs + tail;
    assert text[..n] == hs;
    assert text[n..] == tail;
    assert tail[1..3] == mm && tail[4..] == ap;
    assert text[n + 1..n + 3] == tail[1..3];
    assert text[n + 4..] == tail[4..];
    ReadClockOfSlices(text, hs, mm, ap);
  }

  /** Reading a label built from an hour of the day and two minute digits gives
      that time back. */
  lemma ReadClockOfDayLabel(text: string, h: nat, mm: string)
    requires h < 24 && |mm| == 2 && AllDigits(mm) && DigitsValue(mm) < 60
    requires text == NatToString(Hour12(h)) + ":" + mm + " " + Meridiem(h)
    ensures ReadClock(text) == Some(h * 60 + DigitsValue(mm))
  {
    DigitsValueOfNatToString(Hour12(h));
    ShortNumeral(Hour12(h));
    ReadClockOfParts(NatToString(Hour12(h)), mm, Meridiem(h));
    Hour12OnTheDial(h);
  }

  /** formatTime labels name the time they were made from. */
  lemma {:induction false} FormatTimeReadsBack(totalMinutes: nat)
    requires totalMinutes < 24 * 60
    ensures ReadClock(FormatTime(totalMinutes)) == Some(totalMinutes)
  {
    var h, m := totalMinutes / 60, totalMinutes % 60;
    assert FormatTime(totalMinutes) == NatToString(Hour12(h)) + ":" + Pad2(m) + " " + Meridiem(h);
    ReadClockOfDayLabel(FormatTime(totalMinutes), h, Pad2(m));
  }

  /** The slot-label formatter and the contact-page formatter agree on every
      time of day written as "H:MM". */
  lemma FormattersAgree(h: nat, m: nat)
    requires h < 24 && m < 60
    ensures FormatTimeTo12Hour(NatToString(h) + ":" + Pad2(m)) == FormatTime(h * 60 + m)
  {
    DigitsValueOfNatToString(h);
    TwentyFourHourLabel(NatToString(h), Pad2(m));
    assert (h * 60 + m) / 60 == h && (h * 60 + m) % 60 == m;
  }
}
