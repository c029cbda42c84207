/** The controllers that write to the database, as methods on an object holding
    the three collections. Each method takes the controller's steps in its
    order, updating the collections in place (the ledger of a doctor is read,
    changed and written back as `findByIdAndUpdate` does), and is proved to
    reach the reply and the store that the corresponding `Backend` function
    describes, so every property proved there holds of these methods. */
module ClinicStore {
  import opened Wrappers
  import opened SlotLedger
  import opened Backend
  import opened JsText

  class Store {
    var users: seq<UserAccount>
    var doctors: seq<DoctorAccount>
    var appointments: seq<Appointment>

    constructor (db: Db)
      ensures State() == db
    {
      users := db.users;
      doctors := db.doctors;
      appointments := db.appointments;
    }

    /** The collections as one database value. */
    function State(): Db
      reads this
    {
      Db(users, doctors, appointments)
    }

    /** registerUser. */
    method RegisterUser(name: string, email: string, password: string, isEmail: string -> bool,
                        newId: string, token: string, now: int, mailSent: bool) returns (reply: Reply)
      modifies this
      ensures Outcome(reply, State())
              == Register(old(State()), name, email, password, isEmail, newId, token, now, mailSent)
    {
      if name == "" || email == "" || password == "" {
        return Failure(MissingDetails);
      }
      if !isEmail(email) {
        return Failure(InvalidEmail);
      }
      if Utf16Length(password) < 8 {
        return Failure(WeakPassword);
      }
      if UserByEmail(users, email).Some? {
        return Failure(UserExists);
      }
      var newUser := UserAccount(newId, name, email, Digest(password), false,
                                 Some(Grant(token, now + DayMillis)), None);
      users := users + [newUser];
      if !mailSent {
        return Thrown;
      }
      return Success(Registered);
    }

    /** verifyEmail. */
    method VerifyEmailToken(token: string, now: int) returns (reply: Reply)
      modifies this
      ensures Outcome(reply, State()) == VerifyEmail(old(State()), token, now)
    {
      var found := UserByVerification(users, token, now);
      if found.None? {
        return Failure(BadVerification);
      }
      var k := found.value;
      var user := users[k];
      user := user.(isVerified := true);
      user := user.(verification := None);
      users := users[k := user];
      return Session(user.id, Verified);
    }

    /** resetPassword. */
    method ResetUserPassword(token: string, newPassword: string, now: int) returns (reply: Reply)
      modifies this
      ensures Outcome(reply, State()) == ResetPassword(old(State()), token, newPassword, now)
    {
      if newPassword == "" || Utf16Length(newPassword) < 8 {
        return Failure(WeakNewPassword);
      }
      var found := UserByReset(users, token, now);
      if found.None? {
        return Failure(BadResetToken);
      }
      var k := found.value;
      var user := users[k];
      user := user.(password := Digest(newPassword));
      user := user.(reset := None);
      users := users[k := user];
      return Success(PasswordChanged);
    }

    /** bookAppointment: the ledger is copied, extended (creating the day's
        list when it is missing), the appointment is saved and the ledger is
        written back. */
    method BookAppointment(userId: string, docId: string, slotDate: string, slotTime: string, now: int)
      returns (reply: Reply)
      modifies this
      ensures Outcome(reply, State()) == Book(old(State()), userId, docId, slotDate, slotTime, now)
    {
      var found := DoctorById(doctors, docId);
      if found.None? {
        return Thrown;
      }
      var k := found.value;
      var docData := doctors[k];
      if !docData.available {
        return Failure(DoctorNotAvailable);
      }
      var slotsBooked := docData.slotsBooked;
      if slotDate in slotsBooked {
        if slotTime in slotsBooked[slotDate] {
          return Failure(SlotNotAvailable);
        }
        slotsBooked := slotsBooked[slotDate := slotsBooked[slotDate] + [slotTime]];
      } else {
        slotsBooked := slotsBooked[slotDate := []];
        slotsBooked := slotsBooked[slotDate := slotsBooked[slotDate] + [slotTime]];
        assert slotsBooked == docData.slotsBooked[slotDate := [] + [slotTime]];
      }
      assert Reserve(docData.slotsBooked, slotDate, slotTime) == Some(slotsBooked);
      var appointment := Appointment(userId, docId, slotDate, slotTime, docData.fees, now, false, false, false);
      appointments := appointments + [appointment];
      doctors := doctors[k := docData.(slotsBooked := slotsBooked)];
      return Success(AppointmentBooked);
    }

    /** cancelAppointment as written: the cancelled flag is stored before the
        doctor's ledger is read, so the later failures keep it. */
    method CancelAppointment(userId: string, id: nat) returns (reply: Reply)
      modifies this
      ensures Outcome(reply, State()) == PatientCancel(old(State()), userId, id)
    {
      if id >= |appointments| {
        return Thrown;
      }
      var appointmentData := appointments[id];
      if appointmentData.userId != userId {
        return Failure(Unauthorized);
      }
      appointments := appointments[id := appointmentData.(cancelled := true)];
      var found := DoctorById(doctors, appointmentData.docId);
      if found.None? {
        return Thrown;
      }
      var k := found.value;
      var doctorData := doctors[k];
      var slotsBooked := doctorData.slotsBooked;
      if appointmentData.slotDate !in slotsBooked {
        return Thrown;
      }
      slotsBooked := slotsBooked[appointmentData.slotDate :=
                                 Without(slotsBooked[appointmentData.slotDate], appointmentData.slotTime)];
      doctors := doctors[k := doctorData.(slotsBooked := slotsBooked)];
      return Success(Cancelled);
    }

    /** verifyRazorpay for the order the gateway reports. */
    method VerifyPayment(status: string, receipt: nat) returns (reply: Reply)
      modifies this
      ensures Outcome(reply, State()) == VerifyRazorpay(old(State()), status, receipt)
    {
      if status != "paid" {
        return Failure(PaymentFailed);
      }
      if receipt < |appointments| {
        appointments := appointments[receipt := appointments[receipt].(payment := true)];
      }
      return Success(PaymentSuccessful);
    }

    /** appointmentCancel of the doctor panel. */
    method CancelByDoctor(docId: string, id: nat) returns (reply: Reply)
      modifies this
      ensures Outcome(reply, State()) == DoctorCancel(old(State()), docId, id)
    {
      if id < |appointments| && appointments[id].docId == docId {
        appointments := appointments[id := appointments[id].(cancelled := true)];
        return Success(Cancelled);
      }
      return Failure(Cancelled);
    }

    /** appointmentComplete. */
    method CompleteByDoctor(docId: string, id: nat) returns (reply: Reply)
      modifies this
      ensures Outcome(reply, State()) == DoctorComplete(old(State()), docId, id)
    {
      if id < |appointments| && appointments[id].docId == docId {
        appointments := appointments[id := appointments[id].(isCompleted := true)];
        return Success(Completed);
      }
      return Failure(Cancelled);
    }

    /** changeAvailablity. */
    method ToggleAvailability(docId: string) returns (reply: Reply)
      modifies this
      ensures Outcome(reply, State()) == ChangeAvailability(old(State()), docId)
    {
      var found := DoctorById(doctors, docId);
      if found.None? {
        return Thrown;
      }
      var k := found.value;
      doctors := doctors[k := doctors[k].(available := !doctors[k].available)];
      return Success(AvailabilityChanged);
    }

    /** resetDoctorPassword. */
    method ResetDoctorPasswordToken(token: string, newPassword: string, now: int) returns (reply: Reply)
      modifies this
      ensures Outcome(reply, State()) == ResetDoctorPassword(old(State()), token, newPassword, now)
    {
      if newPassword == "" || Utf16Length(newPassword) < 8 {
        return Failure(WeakNewPassword);
      }
      var found := DoctorByReset(doctors, token, now);
      if found.None? {
        return Failure(BadResetToken);
      }
      var k := found.value;
      var doc := doctors[k];
      doc := doc.(password := Digest(newPassword));
      doc := doc.(reset := None);
      doctors := doctors[k := doc];
      return Success(PasswordChanged);
    }
  }
}
