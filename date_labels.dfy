/** Calendar-day labels. The booking page keys a doctor's booked slots by
    `day + "_" + month + "_" + year` (no zero padding, month counted from 1),
    and the appointment list turns such a key back into "D Mon YYYY". */
module DateLabels {
  import opened JsText

  /** A calendar day as `getDate()`, `getMonth()` (from 0) and `getFullYear()`. */
  datatype CalendarDate = CalendarDate(day: nat, month0: nat, year: nat)

  predicate ValidDate(d: CalendarDate) {
    1 <= d.day <= 31 && d.month0 < 12
  }

  /** The date label of the booking page ("5_3_2025" for 5 March 2025). */
  function DateLabel(d: CalendarDate): string {
    NatToString(d.day) + "_" + NatToString(d.month0 + 1) + "_" + NatToString(d.year)
  }

  const Months: seq<string> :=
    ["Jan", "Feb", "Mar", "Apr", "May", "Jun", "Jul", "Aug", "Sep", "Oct", "Nov", "Dec"]

  /** `months[n - 1]`, which is `undefined` outside 1..12 and for NaN. */
  function MonthName(n: JsNumber): (r: string)
    ensures n.Num? && 1 <= n.value <= 12 ==> r == Months[n.value - 1]
    ensures !(n.Num? && 1 <= n.value <= 12) ==> r == "undefined"
  {
    match n
    case Num(v) => if 1 <= v <= 12 then Months[v - 1] else "undefined"
    case NaN => "undefined"
  }

  /** `dateArray[i]` as string concatenation renders it. */
  function PartText(parts: seq<string>, i: nat): string {
    if i < |parts| then parts[i] else "undefined"
  }

  /** slotDateFormat: the day part, the month's short name and the year part. */
  function SlotDateFormat(slotDate: string): string {
    var dateArray := Split(slotDate, '_');
    dateArray[0] + " " + MonthName(ToNumber(PartText(dateArray, 1))) + " " + PartText(dateArray, 2)
  }

  /** A date label splits at its two underscores into the three numerals. */
  lemma DateLabelPieces(d: CalendarDate)
    ensures Split(DateLabel(d), '_')
            == [NatToString(d.day), NatToString(d.month0 + 1), NatToString(d.year)]
  {
    var ds, ms, ys := NatToString(d.day), NatToString(d.month0 + 1), NatToString(d.year);
    DigitsExclude(ds, '_');
    DigitsExclude(ms, '_');
    DigitsExclude(ys, '_');
    assert DateLabel(d) == ds + ['_'] + (ms + ['_'] + ys);
    SplitAt(ds, '_', ms + ['_'] + ys);
    SplitAt(ms, '_', ys);
    SplitWithout(ys, '_');
  }

  /** Formatting a label shows the day, the month's name and the year. */
  lemma SlotDateFormatOfLabel(d: CalendarDate)
    requires ValidDate(d)
    ensures SlotDateFormat(DateLabel(d))
            == NatToString(d.day) + " " + Months[d.month0] + " " + NatToString(d.year)
  {
    DateLabelPieces(d);
    DigitsValueOfNatToString(d.month0 + 1);
  }

  /** Distinct days have distinct labels, so the slot map never mixes two days. */
  lemma DateLabelInjective(d1: CalendarDate, d2: CalendarDate)
    requires DateLabel(d1) == DateLabel(d2)
    ensures d1 == d2
  {
    DateLabelPieces(d1);
    DateLabelPieces(d2);
    NatToStringInjective(d1.day, d2.day);
    NatToStringInjective(d1.month0 + 1, d2.month0 + 1);
    NatToStringInjective(d1.year, d2.year);
  }

  /** A month numeral outside 1..12 (or not a number) shows as "undefined". */
  lemma SlotDateFormatBadMonth(ds: string, ms: string, ys: string)
    requires '_' !in ds && '_' !in ms && '_' !in ys
    requires !(ToNumber(ms).Num? && 1 <= ToNumber(ms).value <= 12)
    ensures SlotDateFormat(ds + "_" + ms + "_" + ys) == ds + " " + "undefined" + " " + ys
  {
    assert ds + "_" + ms + "_" + ys == ds + ['_'] + (ms + ['_'] + ys);
    SplitAt(ds, '_', ms + ['_'] + ys);
    SplitAt(ms, '_', ys);
    SplitWithout(ys, '_');
  }

  /** A key without underscores shows its text and two "undefined" parts. */
  lemma SlotDateFormatNoSeparator(s: string)
    requires '_' !in s
    ensures SlotDateFormat(s) == s + " " + "undefined" + " " + "undefined"
  {
    SplitWithout(s, '_');
  }
}
