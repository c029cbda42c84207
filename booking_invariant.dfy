/** The invariant the slot ledger exists for: no two active appointments hold
    the same slot of a doctor, and every active appointment's label is in its
    doctor's ledger (so a later booking of that slot is refused).

    The controllers as written do not keep it: cancelAppointment never looks
    at the cancelled flag, so a patient who cancels the same appointment a
    second time removes the label again, although another patient may have
    booked that slot in between; a third booking of that slot then succeeds.
    `RepeatedCancelDoubleBooks` runs such a sequence of requests. With the
    cancel that skips appointments already cancelled (`PatientCancelGuarded`),
    every sequence of requests keeps the invariant (`RunGuardedKeepsInvariant`). */
module BookingInvariant {
  import opened Wrappers
  import opened SlotLedger
  import opened Backend

  /** The requests that touch appointments or ledgers. */
  datatype Request =
    | BookReq(userId: string, docId: string, slotDate: string, slotTime: string, now: int)
    | PatientCancelReq(userId: string, id: nat)
    | DoctorCancelReq(docId: string, id: nat)
    | CompleteReq(docId: string, id: nat)
    | PaidReq(status: string, receipt: nat)
    | ToggleReq(docId: string)

  /** One request handled by the controllers as written. */
  function Step(db: Db, q: Request): Db {
    match q
    case BookReq(u, d, date, time, now) => Book(db, u, d, date, time, now).db
    case PatientCancelReq(u, id) => PatientCancel(db, u, id).db
    case DoctorCancelReq(d, id) => DoctorCancel(db, d, id).db
    case CompleteReq(d, id) => DoctorComplete(db, d, id).db
    case PaidReq(status, receipt) => VerifyRazorpay(db, status, receipt).db
    case ToggleReq(d) => ChangeAvailability(db, d).db
  }

  /** The same, with the patient cancel that ignores appointments already cancelled. */
  function StepGuarded(db: Db, q: Request): Db {
    match q
    case PatientCancelReq(u, id) => PatientCancelGuarded(db, u, id).db
    case _ => Step(db, q)
  }

  function Run(db: Db, qs: seq<Request>): Db
    decreases |qs|
  {
    if qs == [] then db else Run(Step(db, qs[0]), qs[1..])
  }

  function RunGuarded(db: Db, qs: seq<Request>): Db
    decreases |qs|
  {
    if qs == [] then db else RunGuarded(StepGuarded(db, qs[0]), qs[1..])
  }

  predicate Active(a: Appointment) {
    !a.cancelled
  }

  /** The appointment's label is in the ledger of its doctor for its day. */
  predicate Holds(db: Db, a: Appointment) {
    var k := DoctorById(db.doctors, a.docId);
    k.Some? && a.slotTime in Booked(db.doctors[k.value].slotsBooked, a.slotDate)
  }

  predicate Sync(db: Db) {
    forall i :: 0 <= i < |db.appointments| && Active(db.appointments[i]) ==> Holds(db, db.appointments[i])
  }

  /** Two active appointments of one doctor on one day have different times. */
  predicate NoDoubleBooking(db: Db) {
    forall i, j :: 0 <= i < j < |db.appointments| && Active(db.appointments[i]) && Active(db.appointments[j])
                   && db.appointments[i].docId == db.appointments[j].docId
                   && db.appointments[i].slotDate == db.appointments[j].slotDate
                   ==> db.appointments[i].slotTime != db.appointments[j].slotTime
  }

  predicate Invariant(db: Db) {
    Sync(db) && NoDoubleBooking(db)
  }

  /** A store without appointments satisfies the invariant. */
  lemma EmptyStoreInvariant(users: seq<UserAccount>, doctors: seq<DoctorAccount>)
    ensures Invariant(Db(users, doctors, []))
  {
  }

  /** A lookup by id gives the same position when no id changes. */
  lemma DoctorByIdStable(s: seq<DoctorAccount>, t: seq<DoctorAccount>, id: string)
    requires |s| == |t| && forall j :: 0 <= j < |s| ==> s[j].id == t[j].id
    ensures DoctorById(s, id) == DoctorById(t, id)
  {
    match DoctorById(s, id)
    case Some(m) => FirstWhereIs(t, (d: DoctorAccount) => d.id == id, m);
    case None =>
  }

  /** Requests that keep every doctor's id and ledger, keep every appointment's
      slot and only ever make an appointment inactive keep the invariant. */
  lemma FlagChangesKeepInvariant(db: Db, db': Db)
    requires Invariant(db)
    requires |db'.doctors| == |db.doctors|
    requires forall j :: 0 <= j < |db.doctors| ==>
               db'.doctors[j].id == db.doctors[j].id && db'.doctors[j].slotsBooked == db.doctors[j].slotsBooked
    requires |db'.appointments| == |db.appointments|
    requires forall i :: 0 <= i < |db.appointments| ==>
               var a, b := db.appointments[i], db'.appointments[i];
               b.docId == a.docId && b.slotDate == a.slotDate && b.slotTime == a.slotTime
               && (Active(b) ==> Active(a))
    ensures Invariant(db')
  {
    forall d: string ensures DoctorById(db'.doctors, d) == DoctorById(db.doctors, d) {
      DoctorByIdStable(db.doctors, db'.doctors, d);
    }
    forall i | 0 <= i < |db'.appointments| && Active(db'.appointments[i])
      ensures Holds(db', db'.appointments[i])
    {
      assert Holds(db, db.appointments[i]);
    }
  }

  /** A successful booking takes a label no active appointment holds. */
  lemma BookKeepsInvariant(db: Db, userId: string, docId: string, slotDate: string, slotTime: string, now: int)
    requires Invariant(db)
    ensures Invariant(Book(db, userId, docId, slotDate, slotTime, now).db)
  {
    var r := Book(db, userId, docId, slotDate, slotTime, now);
    if r.reply == Success(AppointmentBooked) {
      var k := DoctorById(db.doctors, docId).value;
      var doc := db.doctors[k];
      var db' := r.db;
      var n := |db.appointments|;
      assert db'.doctors == db.doctors[k := doc.(slotsBooked := doc.slotsBooked[slotDate := Booked(doc.slotsBooked, slotDate) + [slotTime]])];
      forall d: string ensures DoctorById(db'.doctors, d) == DoctorById(db.doctors, d) {
        DoctorByIdStable(db.doctors, db'.doctors, d);
      }
      forall i | 0 <= i < |db'.appointments| && Active(db'.appointments[i])
        ensures Holds(db', db'.appointments[i])
      {
        if i < n {
          assert db'.appointments[i] == db.appointments[i];
          assert Holds(db, db.appointments[i]);
        }
      }
      forall i, j | 0 <= i < j < |db'.appointments| && Active(db'.appointments[i]) && Active(db'.appointments[j])
                    && db'.appointments[i].docId == db'.appointments[j].docId
                    && db'.appointments[i].slotDate == db'.appointments[j].slotDate
        ensures db'.appointments[i].slotTime != db'.appointments[j].slotTime
      {
        assert db'.appointments[i] == db.appointments[i];
        if j == n {
          assert Holds(db, db.appointments[i]);
        } else {
          assert db'.appointments[j] == db.appointments[j];
        }
      }
    }
  }

  /** The guarded cancel releases the label of an active appointment: the
      invariant says no other active appointment holds it. */
  lemma GuardedCancelKeepsInvariant(db: Db, userId: string, id: nat)
    requires Invariant(db)
    ensures Invariant(PatientCancelGuarded(db, userId, id).db)
  {
    if id < |db.appointments| && db.appointments[id].userId == userId && !db.appointments[id].cancelled {
      var a := db.appointments[id];
      assert Holds(db, a);
      var r := PatientCancel(db, userId, id);
      assert r.reply == Success(Cancelled);
      var k := DoctorById(db.doctors, a.docId).value;
      var doc := db.doctors[k];
      var db' := r.db;
      assert db'.doctors == db.doctors[k := doc.(slotsBooked := doc.slotsBooked[a.slotDate := Without(doc.slotsBooked[a.slotDate], a.slotTime)])];
      WithoutRemoves(doc.slotsBooked[a.slotDate], a.slotTime);
      forall d: string ensures DoctorById(db'.doctors, d) == DoctorById(db.doctors, d) {
        DoctorByIdStable(db.doctors, db'.doctors, d);
      }
      forall i | 0 <= i < |db'.appointments| && Active(db'.appointments[i])
        ensures Holds(db', db'.appointments[i])
      {
        var b := db.appointments[i];
        assert db'.appointments[i] == b && i != id;
        assert Holds(db, b);
        if b.docId == a.docId && b.slotDate == a.slotDate {
          assert b.slotTime != a.slotTime by {
            if i < id {} else {}
          }
        }
      }
      assert NoDoubleBooking(db');
    }
  }

  lemma GuardedStepKeepsInvariant(db: Db, q: Request)
    requires Invariant(db)
    ensures Invariant(StepGuarded(db, q))
  {
    match q
    case BookReq(u, d, date, time, now) => BookKeepsInvariant(db, u, d, date, time, now);
    case PatientCancelReq(u, id) => GuardedCancelKeepsInvariant(db, u, id);
    case DoctorCancelReq(d, id) => FlagChangesKeepInvariant(db, DoctorCancel(db, d, id).db);
    case CompleteReq(d, id) => FlagChangesKeepInvariant(db, DoctorComplete(db, d, id).db);
    case PaidReq(status, receipt) => FlagChangesKeepInvariant(db, VerifyRazorpay(db, status, receipt).db);
    case ToggleReq(d) => FlagChangesKeepInvariant(db, ChangeAvailability(db, d).db);
  }

  /** Every sequence of requests, with the guarded cancel, keeps the invariant. */
  lemma {:induction false} RunGuardedKeepsInvariant(db: Db, qs: seq<Request>)
    requires Invariant(db)
    ensures Invariant(RunGuarded(db, qs))
    decreases |qs|
  {
    if qs != [] {
      GuardedStepKeepsInvariant(db, qs[0]);
      RunGuardedKeepsInvariant(StepGuarded(db, qs[0]), qs[1..]);
    }
  }

  /** A booking of a free slot of the only doctor, as the trace below uses it. */
  lemma BookFreeSlot(db: Db, doc: DoctorAccount, u: string, date: string, time: string, now: int)
    requires db.doctors == [doc] && doc.available && time !in Booked(doc.slotsBooked, date)
    ensures Step(db, BookReq(u, doc.id, date, time, now))
            == Db(db.users, [doc.(slotsBooked := doc.slotsBooked[date := Booked(doc.slotsBooked, date) + [time]])],
                  db.appointments + [Appointment(u, doc.id, date, time, doc.fees, now, false, false, false)])
  {
    FirstWhereIs(db.doctors, (d: DoctorAccount) => d.id == doc.id, 0);
  }

  /** A patient's cancel of their appointment with the only doctor. */
  lemma CancelWithOnlyDoctor(db: Db, doc: DoctorAccount, u: string, id: nat)
    requires db.doctors == [doc] && id < |db.appointments|
    requires var a := db.appointments[id]; a.userId == u && a.docId == doc.id && a.slotDate in doc.slotsBooked
    ensures var a := db.appointments[id];
            Step(db, PatientCancelReq(u, id))
            == Db(db.users, [doc.(slotsBooked := doc.slotsBooked[a.slotDate := Without(doc.slotsBooked[a.slotDate], a.slotTime)])],
                  MarkCancelled(db, id).appointments)
  {
    FirstWhereIs(db.doctors, (d: DoctorAccount) => d.id == doc.id, 0);
  }

  lemma RunFive(db: Db, qs: seq<Request>)
    requires |qs| == 5
    ensures Run(db, qs) == Step(Step(Step(Step(Step(db, qs[0]), qs[1]), qs[2]), qs[3]), qs[4])
  {
    var d1 := Step(db, qs[0]);
    var d2 := Step(d1, qs[1]);
    var d3 := Step(d2, qs[2]);
    var d4 := Step(d3, qs[3]);
    var d5 := Step(d4, qs[4]);
    assert Run(d4, qs[4..]) == d5 by {
      assert qs[4..][0] == qs[4] && qs[4..][1..] == [];
    }
    assert Run(d3, qs[3..]) == Run(d4, qs[4..]) by {
      assert qs[3..][0] == qs[3] && qs[3..][1..] == qs[4..];
    }
    assert Run(d2, qs[2..]) == Run(d3, qs[3..]) by {
      assert qs[2..][0] == qs[2] && qs[2..][1..] == qs[3..];
    }
    assert Run(d1, qs[1..]) == Run(d2, qs[2..]) by {
      assert qs[1..][0] == qs[1] && qs[1..][1..] == qs[2..];
    }
  }

  // The double booking the unguarded cancel allows: patient "a" books and
  // cancels a slot, patient "b" books it, "a" cancels the old appointment
  // again, and patient "c" books the same slot, next to "b".

  const TraceDate := "1_1_2030"
  const TraceTime := "10:00 AM"
  const TraceDoctor := DoctorAccount("d", "d@x", Digest("secret00"), true, 50, map[], None)
  const TraceBooked := TraceDoctor.(slotsBooked := map[TraceDate := [TraceTime]])
  const TraceFreed := TraceDoctor.(slotsBooked := map[TraceDate := []])

  function TraceAppointment(u: string, now: int, cancelled: bool): Appointment {
    Appointment(u, "d", TraceDate, TraceTime, 50, now, cancelled, false, false)
  }

  function TraceRequests(): seq<Request> {
    [BookReq("a", "d", TraceDate, TraceTime, 0), PatientCancelReq("a", 0),
     BookReq("b", "d", TraceDate, TraceTime, 1), PatientCancelReq("a", 0),
     BookReq("c", "d", TraceDate, TraceTime, 2)]
  }

  lemma TraceBookA()
    ensures Step(Db([], [TraceDoctor], []), TraceRequests()[0])
            == Db([], [TraceBooked], [TraceAppointment("a", 0, false)])
  {
    assert Booked(TraceDoctor.slotsBooked, TraceDate) + [TraceTime] == [TraceTime];
    BookFreeSlot(Db([], [TraceDoctor], []), TraceDoctor, "a", TraceDate, TraceTime, 0);
  }

  lemma TraceCancelA()
    ensures Step(Db([], [TraceBooked], [TraceAppointment("a", 0, false)]), TraceRequests()[1])
            == Db([], [TraceFreed], [TraceAppointment("a", 0, true)])
  {
    assert Without([TraceTime], TraceTime) == [];
    assert TraceBooked.slotsBooked[TraceDate := Without(TraceBooked.slotsBooked[TraceDate], TraceTime)]
           == TraceFreed.slotsBooked;
    CancelWithOnlyDoctor(Db([], [TraceBooked], [TraceAppointment("a", 0, false)]), TraceBooked, "a", 0);
  }

  lemma TraceBookB()
    ensures Step(Db([], [TraceFreed], [TraceAppointment("a", 0, true)]), TraceRequests()[2])
            == Db([], [TraceBooked], [TraceAppointment("a", 0, true), TraceAppointment("b", 1, false)])
  {
    assert Booked(TraceFreed.slotsBooked, TraceDate) + [TraceTime] == [TraceTime];
    assert TraceFreed.slotsBooked[TraceDate := [TraceTime]] == TraceBooked.slotsBooked;
    BookFreeSlot(Db([], [TraceFreed], [TraceAppointment("a", 0, true)]), TraceFreed, "b", TraceDate, TraceTime, 1);
  }

  lemma TraceCancelAAgain()
    ensures Step(Db([], [TraceBooked], [TraceAppointment("a", 0, true), TraceAppointment("b", 1, false)]),
                 TraceRequests()[3])
            == Db([], [TraceFreed], [TraceAppointment("a", 0, true), TraceAppointment("b", 1, false)])
  {
    var db := Db([], [TraceBooked], [TraceAppointment("a", 0, true), TraceAppointment("b", 1, false)]);
    assert Without([TraceTime], TraceTime) == [];
    assert TraceBooked.slotsBooked[TraceDate := Without(TraceBooked.slotsBooked[TraceDate], TraceTime)]
           == TraceFreed.slotsBooked;
    CancelWithOnlyDoctor(db, TraceBooked, "a", 0);
    assert MarkCancelled(db, 0).appointments == db.appointments;
  }

  lemma TraceBookC()
    ensures Step(Db([], [TraceFreed], [TraceAppointment("a", 0, true), TraceAppointment("b", 1, false)]),
                 TraceRequests()[4])
            == Db([], [TraceBooked], [TraceAppointment("a", 0, true), TraceAppointment("b", 1, false),
                                      TraceAppointment("c", 2, false)])
  {
    var db := Db([], [TraceFreed], [TraceAppointment("a", 0, true), TraceAppointment("b", 1, false)]);
    assert Booked(TraceFreed.slotsBooked, TraceDate) + [TraceTime] == [TraceTime];
    assert TraceFreed.slotsBooked[TraceDate := [TraceTime]] == TraceBooked.slotsBooked;
    BookFreeSlot(db, TraceFreed, "c", TraceDate, TraceTime, 2);
  }

  /** Five requests, each accepted, take a store that satisfies the invariant
      to one where patients "b" and "c" hold the same slot. */
  lemma RepeatedCancelDoubleBooks()
    ensures Invariant(Db([], [TraceDoctor], []))
    ensures var db := Run(Db([], [TraceDoctor], []), TraceRequests());
            |db.appointments| == 3
            && db.appointments[1] == TraceAppointment("b", 1, false)
            && db.appointments[2] == TraceAppointment("c", 2, false)
            && !NoDoubleBooking(db)
  {
    TraceBookA();
    TraceCancelA();
    TraceBookB();
    TraceCancelAAgain();
    TraceBookC();
    RunFive(Db([], [TraceDoctor], []), TraceRequests());
  }
}
