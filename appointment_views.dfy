/** What the appointment lists show for one appointment: the patient's own page
    (badges and buttons chosen by independent conditions), the admin and doctor
    pages (one nested choice giving precedence to `cancelled`), the amount and
    payment cells, the dashboards' latest-five list, the doctor's greeting and
    the dispatch of a confirmed action. */
module AppointmentViews {
  import opened Wrappers
  import opened JsText
  import opened Backend
  import opened Dashboard

  // ------------------------------------------------------------ patient page

  /** The controls a card of the patient's page may show. */
  datatype Control =
    | PayOnline        // the "Pay Online" button
    | Gateway          // the gateway button, once "Pay Online" was chosen
    | PaidBadge
    | CompletedBadge
    | CancelButton     // "Cancel Appointment"
    | CancelledBadge

  /** The card's controls in the order the page lays them out; `selected` is
      the appointment whose "Pay Online" was pressed (initially none). */
  function PatientControls(id: nat, a: Appointment, selected: Option<nat>): seq<Control> {
    var open := !a.cancelled && !a.payment && !a.isCompleted;
    (if open && selected != Some(id) then [PayOnline] else [])
    + (if open && selected == Some(id) then [Gateway] else [])
    + (if !a.cancelled && a.payment && !a.isCompleted then [PaidBadge] else [])
    + (if a.isCompleted then [CompletedBadge] else [])
    + (if !a.cancelled && !a.isCompleted then [CancelButton] else [])
    + (if a.cancelled && !a.isCompleted then [CancelledBadge] else [])
  }

  /** Each control appears exactly under its own condition. */
  lemma PatientControlsShown(id: nat, a: Appointment, selected: Option<nat>)
    ensures var c := PatientControls(id, a, selected);
            (PayOnline in c <==> !a.cancelled && !a.payment && !a.isCompleted && selected != Some(id))
            && (Gateway in c <==> !a.cancelled && !a.payment && !a.isCompleted && selected == Some(id))
            && (PaidBadge in c <==> !a.cancelled && a.payment && !a.isCompleted)
            && (CompletedBadge in c <==> a.isCompleted)
            && (CancelButton in c <==> !a.cancelled && !a.isCompleted)
            && (CancelledBadge in c <==> a.cancelled && !a.isCompleted)
  {
  }

  /** Whatever the flags, a card shows exactly one status control (one of the
      payment buttons or one of the badges), followed at most by the Cancel button. */
  lemma PatientStatusIsUnique(id: nat, a: Appointment, selected: Option<nat>)
    ensures var c := PatientControls(id, a, selected);
            (|c| == 1 || (|c| == 2 && c[1] == CancelButton)) && c[0] != CancelButton
  {
  }

  /** On the patient's page completion takes precedence: a completed
      appointment shows only its "Completed" badge, whatever else is set. */
  lemma CompletedShowsOnlyBadge(id: nat, a: Appointment, selected: Option<nat>)
    requires a.isCompleted
    ensures PatientControls(id, a, selected) == [CompletedBadge]
  {
  }

  /** The patient's list is the server's list reversed: the newest booking on top. */
  function MyAppointmentsList(fetched: seq<Appointment>): (r: seq<Appointment>)
    ensures |r| == |fetched|
    ensures |fetched| > 0 ==> r[0] == fetched[|fetched| - 1]
  {
    Reversed(fetched)
  }

  // ---------------------------------------------------- admin and doctor pages

  /** The status column of the admin and doctor pages. */
  datatype StatusCell =
    | ShowsCancelled
    | ShowsCompleted
    | OffersCancel                // admin pages: a Cancel button
    | OffersCancelAndComplete     // doctor pages: Cancel and Complete buttons

  /** The admin pages' nested choice: cancelled, else completed, else Cancel. */
  function AdminStatus(a: Appointment): StatusCell {
    if a.cancelled then ShowsCancelled else if a.isCompleted then ShowsCompleted else OffersCancel
  }

  /** The doctor pages' nested choice: cancelled, else completed, else both actions. */
  function DoctorStatus(a: Appointment): StatusCell {
    if a.cancelled then ShowsCancelled else if a.isCompleted then ShowsCompleted else OffersCancelAndComplete
  }

  /** Staff pages give precedence to `cancelled`; the buttons appear only when
      neither flag is set; the admin and doctor pages differ only in the buttons. */
  lemma StaffStatusPrecedence(a: Appointment)
    ensures AdminStatus(a) == ShowsCancelled <==> a.cancelled
    ensures AdminStatus(a) == ShowsCompleted <==> !a.cancelled && a.isCompleted
    ensures AdminStatus(a) == OffersCancel <==> !a.cancelled && !a.isCompleted
    ensures DoctorStatus(a) == OffersCancelAndComplete <==> !a.cancelled && !a.isCompleted
    ensures AdminStatus(a) != OffersCancel ==> DoctorStatus(a) == AdminStatus(a)
  {
  }

  /** The pages disagree on an appointment that is both cancelled and completed:
      the patient sees "Completed", the staff see "Cancelled". The doctor panel
      can produce such an appointment, since completing does not look at
      `cancelled`: cancelling and then completing an appointment of one's own. */
  lemma PagesDisagreeAfterCancelThenComplete(db: Db, docId: string, id: nat, selected: Option<nat>)
    requires OwnedBy(db, id, docId)
    ensures var db2 := DoctorComplete(DoctorCancel(db, docId, id).db, docId, id).db;
            var a := db2.appointments[id];
            a.cancelled && a.isCompleted
            && PatientControls(id, a, selected) == [CompletedBadge]
            && AdminStatus(a) == ShowsCancelled && DoctorStatus(a) == ShowsCancelled
  {
    var db1 := DoctorCancel(db, docId, id).db;
    assert db1.appointments[id] == db.appointments[id].(cancelled := true);
    assert OwnedBy(db1, id, docId);
  }

  // ------------------------------------------------------ amount and payment

  /** The fees cell: the currency sign, then "N/A" for NaN or the number. */
  function AmountText(currency: string, amount: JsNumber): (r: string)
    ensures |currency| <= |r| && r[..|currency|] == currency
  {
    currency + (if amount.NaN? then "N/A" else NumberToString(amount))
  }

  /** The currency sign is shown even before "N/A"; a non-negative amount is
      shown as its decimal digits and reads back as the same number. */
  lemma AmountTextReadsBack(currency: string, amount: JsNumber)
    ensures amount.NaN? ==> AmountText(currency, amount) == currency + "N/A"
    ensures amount.Num? && amount.value >= 0 ==>
              var digits := AmountText(currency, amount)[|currency|..];
              AllDigits(digits) && ParseInt(digits) == amount
  {
    if amount.Num? && amount.value >= 0 {
      var digits := AmountText(currency, amount)[|currency|..];
      assert digits == NatToString(amount.value);
      DigitsValueOfNatToString(amount.value);
      ParseIntOfDigits(digits);
    }
  }

  /** The payment badge. */
  function PaymentLabel(a: Appointment): string {
    if a.payment then "Online" else "CASH"
  }

  /** The badge tells paid from unpaid: "Online" exactly for paid appointments. */
  lemma PaymentLabelTells(a: Appointment, b: Appointment)
    ensures PaymentLabel(a) == "Online" <==> a.payment
    ensures PaymentLabel(a) == PaymentLabel(b) <==> a.payment == b.payment
  {
    assert "Online"[0] != "CASH"[0];
  }

  // --------------------------------------------------------------- dashboards

  /** The first five entries, or all of them when there are fewer. */
  function Latest5<T>(s: seq<T>): (r: seq<T>)
    ensures |r| == if |s| < 5 then |s| else 5
    ensures r <= s
  {
    if |s| < 5 then s else s[..5]
  }

  /** The doctor dashboard lists the doctor's most recent bookings, newest
      first: entry `i` is the `i`-th appointment from the end of the store. */
  lemma LatestAreNewest(db: Db, docId: string, i: nat)
    requires var list := AppointmentsOf(db.appointments, docId); i < 5 && i < |list|
    ensures var list := AppointmentsOf(db.appointments, docId);
            var shown := Latest5(Reversed(list));
            i < |shown| && shown[i] == list[|list| - 1 - i]
  {
  }

  /** The doctor's greeting by the hour of the day. */
  function Greeting(hour: int): string {
    if hour < 12 then "Good Morning"
    else if hour < 18 then "Good Afternoon"
    else "Good Evening"
  }

  lemma GreetingByHour(hour: int)
    ensures Greeting(hour) == "Good Morning" <==> hour < 12
    ensures Greeting(hour) == "Good Afternoon" <==> 12 <= hour < 18
    ensures Greeting(hour) == "Good Evening" <==> hour >= 18
  {
    assert "Good Morning"[5] != "Good Afternoon"[5] && "Good Morning"[5] != "Good Evening"[5]
           && "Good Afternoon"[5] != "Good Evening"[5];
  }

  // ---------------------------------------------------------- confirm dialogs

  /** The doctor dashboard's pending dialog: which action, on which appointment. */
  datatype Modal = Modal(kind: string, data: Option<nat>)

  /** The call a confirmation makes. */
  datatype Call = CancelCall(id: nat) | CompleteCall(id: nat)

  /** handleConfirm: nothing without an appointment; otherwise the call for the
      dialog's kind ('cancel' or 'complete', none for another kind), followed
      by a refresh. None means the handler returned at once. */
  function Confirm(m: Modal): (r: Option<Option<Call>>)
    ensures r.None? <==> m.data.None?
    ensures r.Some? && r.value.Some? ==> r.value.value.id == m.data.value
    ensures r.Some? ==> (r.value == Some(CancelCall(m.data.value)) <==> m.kind == "cancel")
    ensures r.Some? ==> (r.value.Some? && r.value.value.CompleteCall? <==> m.kind == "complete")
  {
    if m.data.None? then None
    else if m.kind == "cancel" then Some(Some(CancelCall(m.data.value)))
    else if m.kind == "complete" then Some(Some(CompleteCall(m.data.value)))
    else Some(None)
  }

  /** The store after the confirmation, the doctor's calls going to the
      doctor-panel controllers. */
  function AfterConfirm(db: Db, docId: string, m: Modal): Db {
    match Confirm(m)
    case None => db
    case Some(None) => db
    case Some(Some(CancelCall(id))) => DoctorCancel(db, docId, id).db
    case Some(Some(CompleteCall(id))) => DoctorComplete(db, docId, id).db
  }

  /** Confirming a cancel of one's own appointment makes the dashboard show it
      as cancelled; confirming with no appointment selected changes nothing. */
  lemma ConfirmedCancelShows(db: Db, docId: string, id: nat)
    requires OwnedBy(db, id, docId)
    ensures AfterConfirm(db, docId, Modal("cancel", None)) == db
    ensures DoctorStatus(AfterConfirm(db, docId, Modal("cancel", Some(id))).appointments[id]) == ShowsCancelled
  {
  }

  /** The admin dashboard's confirmation cancels the selected appointment, and
      does nothing when none is selected. */
  function AdminConfirmCancel(selected: Option<nat>): (r: Option<Call>)
    ensures r.None? <==> selected.None?
    ensures r.Some? ==> selected.Some? && r.value == CancelCall(selected.value)
  {
    if selected.None? then None else Some(CancelCall(selected.value))
  }
}
