/** The records the two controllers work on and the controllers themselves, as
    functions from the database before a request to the reply and the database
    after it. Requests are taken one at a time.

    Stores: users and doctors are lists of records carrying their own id
    (`findById` and `findOne` pick the first record that matches); an
    appointment's id is its position in the appointment list, which only grows.
    A bcrypt hash is an ideal digest that matches exactly its own secret; a
    signed jwt is represented by the account id it names. An exception that the
    controller's `catch` turns into `{ success: false, message: error.message }`
    is the reply `Thrown`, since its text comes from the JavaScript engine. */
module Backend {
  import opened Wrappers
  import opened SlotLedger
  import opened JsText

  /** `bcrypt.hash(secret)`, compared by `bcrypt.compare`. */
  datatype Digest = Digest(secret: string)

  predicate PasswordMatches(password: string, hash: Digest) {
    hash == Digest(password)
  }

  /** A one-time token and its expiry in milliseconds since the epoch. */
  datatype Grant = Grant(token: string, expires: int)

  datatype UserAccount = UserAccount(
    id: string, name: string, email: string, password: Digest,
    isVerified: bool, verification: Option<Grant>, reset: Option<Grant>)

  datatype DoctorAccount = DoctorAccount(
    id: string, email: string, password: Digest, available: bool, fees: int,
    slotsBooked: Slots, reset: Option<Grant>)

  datatype Appointment = Appointment(
    userId: string, docId: string, slotDate: string, slotTime: string,
    amount: int, date: int, cancelled: bool, payment: bool, isCompleted: bool)

  datatype Db = Db(users: seq<UserAccount>, doctors: seq<DoctorAccount>, appointments: seq<Appointment>)

  /** What a controller sends back: a message with success true or false, a
      session token for an account, a payment order, or a caught exception. */
  datatype Reply =
    | Success(message: string)
    | Failure(message: string)
    | Session(accountId: string, message: string)
    | Order(amount: int, receipt: nat)
    | Thrown

  datatype Outcome = Outcome(reply: Reply, db: Db)

  const DayMillis := 24 * 60 * 60 * 1000

  /** The first position whose element satisfies `p` (`findOne`, `findById`). */
  function FirstWhere<T>(s: seq<T>, p: T -> bool): (r: Option<nat>)
    ensures r.Some? ==> r.value < |s| && p(s[r.value])
                        && forall j :: 0 <= j < r.value ==> !p(s[j])
    ensures r.None? ==> forall j :: 0 <= j < |s| ==> !p(s[j])
  {
    if s == [] then None
    else if p(s[0]) then Some(0)
    else match FirstWhere(s[1..], p)
      case Some(k) => Some(k + 1)
      case None => None
  }

  function UserByEmail(users: seq<UserAccount>, email: string): Option<nat> {
    FirstWhere(users, (u: UserAccount) => u.email == email)
  }

  /** `{ token: t, expires: { $gt: now } }`: a grant holding `token` that is
      still valid at `now`. */
  predicate Live(g: Option<Grant>, token: string, now: int) {
    g.Some? && g.value.token == token && g.value.expires > now
  }

  function UserByVerification(users: seq<UserAccount>, token: string, now: int): Option<nat> {
    FirstWhere(users, (u: UserAccount) => Live(u.verification, token, now))
  }

  function UserByReset(users: seq<UserAccount>, token: string, now: int): Option<nat> {
    FirstWhere(users, (u: UserAccount) => Live(u.reset, token, now))
  }

  function DoctorById(doctors: seq<DoctorAccount>, id: string): Option<nat> {
    FirstWhere(doctors, (d: DoctorAccount) => d.id == id)
  }

  function DoctorByEmail(doctors: seq<DoctorAccount>, email: string): Option<nat> {
    FirstWhere(doctors, (d: DoctorAccount) => d.email == email)
  }

  function DoctorByReset(doctors: seq<DoctorAccount>, token: string, now: int): Option<nat> {
    FirstWhere(doctors, (d: DoctorAccount) => Live(d.reset, token, now))
  }

  // ---------------------------------------------------------------- users

  const MissingDetails := "Missing Details"
  const InvalidEmail := "Please enter a valid email"
  const WeakPassword := "Please enter a strong password"
  const UserExists := "User already exists"
  const Registered := "Registration successful! Please check your email to verify your account."

  /** registerUser. `isEmail` is the validator library's check; `newId` and
      `token` are the fresh record id and the random verification token;
      `mailSent` says whether sending the verification mail succeeded (the
      record is saved before the mail is sent, so a failed send still leaves
      the account). */
  function Register(db: Db, name: string, email: string, password: string,
                    isEmail: string -> bool, newId: string, token: string, now: int,
                    mailSent: bool): (r: Outcome)
    ensures name == "" || email == "" || password == "" ==> r == Outcome(Failure(MissingDetails), db)
    ensures name != "" && email != "" && password != "" && !isEmail(email)
            ==> r == Outcome(Failure(InvalidEmail), db)
    ensures name != "" && email != "" && password != "" && isEmail(email) && Utf16Length(password) < 8
            ==> r == Outcome(Failure(WeakPassword), db)
    ensures name != "" && email != "" && password != "" && isEmail(email) && Utf16Length(password) >= 8
              && UserByEmail(db.users, email).Some?
            ==> r == Outcome(Failure(UserExists), db)
    ensures r.reply.Failure? ==> r.db == db
    ensures !r.reply.Failure? <==>
              name != "" && email != "" && password != "" && isEmail(email) && Utf16Length(password) >= 8
              && forall j :: 0 <= j < |db.users| ==> db.users[j].email != email
    ensures !r.reply.Failure? ==>
              r.reply == (if mailSent then Success(Registered) else Thrown)
              && r.db.doctors == db.doctors && r.db.appointments == db.appointments
              && r.db.users == db.users + [UserAccount(newId, name, email, Digest(password), false,
                                                       Some(Grant(token, now + DayMillis)), None)]
  {
    if name == "" || email == "" || password == "" then Outcome(Failure(MissingDetails), db)
    else if !isEmail(email) then Outcome(Failure(InvalidEmail), db)
    else if Utf16Length(password) < 8 then Outcome(Failure(WeakPassword), db)
    else if UserByEmail(db.users, email).Some? then Outcome(Failure(UserExists), db)
    else
      var user := UserAccount(newId, name, email, Digest(password), false,
                              Some(Grant(token, now + DayMillis)), None);
      var db' := db.(users := db.users + [user]);
      Outcome(if mailSent then Success(Registered) else Thrown, db')
  }

  const BadVerification := "Invalid or expired verification token"
  const Verified := "Email verified successfully! You are now logged in."

  /** verifyEmail: the first user holding a live verification grant for the
      token is marked verified and the grant is cleared; the reply logs the
      user in. */
  function VerifyEmail(db: Db, token: string, now: int): (r: Outcome)
    ensures r.reply.Session? <==> exists j :: 0 <= j < |db.users| && Live(db.users[j].verification, token, now)
    ensures !r.reply.Session? ==> r == Outcome(Failure(BadVerification), db)
    ensures r.reply.Session? ==>
              UserByVerification(db.users, token, now).Some?
              && var k := UserByVerification(db.users, token, now).value;
                 r.reply == Session(db.users[k].id, Verified)
                 && r.db == db.(users := db.users[k := db.users[k].(isVerified := true, verification := None)])
  {
    match UserByVerification(db.users, token, now)
    case None => Outcome(Failure(BadVerification), db)
    case Some(k) =>
      var u := db.users[k];
      Outcome(Session(u.id, Verified),
              db.(users := db.users[k := u.(isVerified := true, verification := None)]))
  }

  const NoSuchUser := "User does not exist"
  const Unverified := "Please verify your email before logging in"
  const InvalidCredentials := "Invalid credentials"

  /** loginUser: an unverified account is refused before its password is looked at. */
  function LoginUser(db: Db, email: string, password: string): (r: Reply)
    ensures r.Session? <==>
              exists k :: 0 <= k < |db.users| && UserByEmail(db.users, email) == Some(k)
                && db.users[k].isVerified && PasswordMatches(password, db.users[k].password)
    ensures r.Session? ==> r == Session(db.users[UserByEmail(db.users, email).value].id, "")
    ensures (forall j :: 0 <= j < |db.users| ==> db.users[j].email != email) ==> r == Failure(NoSuchUser)
    ensures UserByEmail(db.users, email).Some? && !db.users[UserByEmail(db.users, email).value].isVerified
            ==> r == Failure(Unverified)
    ensures UserByEmail(db.users, email).Some? && db.users[UserByEmail(db.users, email).value].isVerified
            && !PasswordMatches(password, db.users[UserByEmail(db.users, email).value].password)
            ==> r == Failure(InvalidCredentials)
  {
    match UserByEmail(db.users, email)
    case None => Failure(NoSuchUser)
    case Some(k) =>
      var u := db.users[k];
      if !u.isVerified then Failure(Unverified)
      else if PasswordMatches(password, u.password) then Session(u.id, "")
      else Failure(InvalidCredentials)
  }

  const WeakNewPassword := "Please enter a strong password (min 8 characters)"
  const BadResetToken := "Invalid or expired reset token"
  const PasswordChanged := "Password reset successful! You can now login with your new password."

  /** resetPassword: the length check comes first, then the token lookup; on
      success the password is replaced and the reset grant cleared. */
  function ResetPassword(db: Db, token: string, newPassword: string, now: int): (r: Outcome)
    ensures Utf16Length(newPassword) < 8 ==> r == Outcome(Failure(WeakNewPassword), db)
    ensures Utf16Length(newPassword) >= 8 && !(exists j :: 0 <= j < |db.users| && Live(db.users[j].reset, token, now))
            ==> r == Outcome(Failure(BadResetToken), db)
    ensures !r.reply.Success? ==> r.db == db
    ensures r.reply.Success? <==>
              Utf16Length(newPassword) >= 8 && exists j :: 0 <= j < |db.users| && Live(db.users[j].reset, token, now)
    ensures r.reply.Success? ==>
              r.reply == Success(PasswordChanged) && UserByReset(db.users, token, now).Some?
              && var k := UserByReset(db.users, token, now).value;
                 r.db == db.(users := db.users[k := db.users[k].(password := Digest(newPassword), reset := None)])
  {
    if newPassword == "" || Utf16Length(newPassword) < 8 then Outcome(Failure(WeakNewPassword), db)
    else match UserByReset(db.users, token, now)
      case None => Outcome(Failure(BadResetToken), db)
      case Some(k) =>
        var u := db.users[k];
        Outcome(Success(PasswordChanged),
                db.(users := db.users[k := u.(password := Digest(newPassword), reset := None)]))
  }

  // --------------------------------------------------------- appointments

  const DoctorNotAvailable := "Doctor Not Available"
  const SlotNotAvailable := "Slot Not Available"
  const AppointmentBooked := "Appointment Booked"

  /** bookAppointment: an unknown doctor makes `docData.available` throw; an
      unavailable doctor or a taken label is refused; otherwise the label is
      reserved in the doctor's ledger and an appointment costing the doctor's
      fee is appended. */
  function Book(db: Db, userId: string, docId: string, slotDate: string, slotTime: string,
                now: int): (r: Outcome)
    ensures r.reply == Thrown <==> forall j :: 0 <= j < |db.doctors| ==> db.doctors[j].id != docId
    ensures r.reply == Failure(DoctorNotAvailable) <==>
              exists k :: DoctorById(db.doctors, docId) == Some(k) && !db.doctors[k].available
    ensures r.reply == Failure(SlotNotAvailable) <==>
              exists k :: DoctorById(db.doctors, docId) == Some(k) && db.doctors[k].available
                && slotTime in Booked(db.doctors[k].slotsBooked, slotDate)
    ensures r.reply == Success(AppointmentBooked) <==>
              exists k :: DoctorById(db.doctors, docId) == Some(k) && db.doctors[k].available
                && slotTime !in Booked(db.doctors[k].slotsBooked, slotDate)
    ensures r.reply != Success(AppointmentBooked) ==> r.db == db
    ensures r.reply == Success(AppointmentBooked) ==>
              var k := DoctorById(db.doctors, docId).value;
              var doc := db.doctors[k];
              r.db.users == db.users
              && r.db.appointments
                 == db.appointments + [Appointment(userId, docId, slotDate, slotTime, doc.fees, now, false, false, false)]
              && r.db.doctors
                 == db.doctors[k := doc.(slotsBooked := doc.slotsBooked[slotDate := Booked(doc.slotsBooked, slotDate) + [slotTime]])]
  {
    match DoctorById(db.doctors, docId)
    case None => Outcome(Thrown, db)
    case Some(k) =>
      var doc := db.doctors[k];
      if !doc.available then Outcome(Failure(DoctorNotAvailable), db)
      else match Reserve(doc.slotsBooked, slotDate, slotTime)
        case None => Outcome(Failure(SlotNotAvailable), db)
        case Some(slots) =>
          var a := Appointment(userId, docId, slotDate, slotTime, doc.fees, now, false, false, false);
          Outcome(Success(AppointmentBooked),
                  Db(db.users, db.doctors[k := doc.(slotsBooked := slots)], db.appointments + [a]))
  }

  const Unauthorized := "Unauthorized action"
  const Cancelled := "Appointment Cancelled"

  /** The store after `findByIdAndUpdate(id, { cancelled: true })`. */
  function MarkCancelled(db: Db, id: nat): Db
    requires id < |db.appointments|
  {
    db.(appointments := db.appointments[id := db.appointments[id].(cancelled := true)])
  }

  /** cancelAppointment as written: an unknown id throws; another user's
      appointment is refused; otherwise the appointment is marked cancelled and
      then the label is filtered out of the doctor's list for that day. The
      cancelled flag is saved before the doctor is read, so a missing doctor or
      a day without a list throws with the flag already set. Nothing looks at
      whether the appointment was already cancelled. */
  function PatientCancel(db: Db, userId: string, id: nat): (r: Outcome)
    ensures id >= |db.appointments| ==> r == Outcome(Thrown, db)
    ensures id < |db.appointments| && db.appointments[id].userId != userId
            ==> r == Outcome(Failure(Unauthorized), db)
    ensures id < |db.appointments| && db.appointments[id].userId == userId ==>
              r.db.users == db.users
              && r.db.appointments == MarkCancelled(db, id).appointments
              && (r.reply == Success(Cancelled) || r == Outcome(Thrown, MarkCancelled(db, id)))
    ensures r.reply == Success(Cancelled) <==>
              id < |db.appointments| && db.appointments[id].userId == userId
              && exists k :: DoctorById(db.doctors, db.appointments[id].docId) == Some(k)
                   && db.appointments[id].slotDate in db.doctors[k].slotsBooked
    ensures r.reply == Success(Cancelled) ==>
              id < |db.appointments| && db.appointments[id].userId == userId
              && DoctorById(db.doctors, db.appointments[id].docId).Some?
              && var a := db.appointments[id];
                 var k := DoctorById(db.doctors, a.docId).value;
                 var doc := db.doctors[k];
                 a.slotDate in doc.slotsBooked
                 && r.db.doctors == db.doctors[k := doc.(slotsBooked := doc.slotsBooked[a.slotDate := Without(doc.slotsBooked[a.slotDate], a.slotTime)])]
  {
    if id >= |db.appointments| then Outcome(Thrown, db)
    else
      var a := db.appointments[id];
      if a.userId != userId then Outcome(Failure(Unauthorized), db)
      else
        var db1 := MarkCancelled(db, id);
        match DoctorById(db1.doctors, a.docId)
        case None => Outcome(Thrown, db1)
        case Some(k) =>
          var doc := db1.doctors[k];
          match Release(doc.slotsBooked, a.slotDate, a.slotTime)
          case None => Outcome(Thrown, db1)
          case Some(slots) =>
            Outcome(Success(Cancelled), db1.(doctors := db1.doctors[k := doc.(slotsBooked := slots)]))
  }

  /** The cancel the booking invariant needs: the same steps, except that an
      appointment that is already cancelled is reported cancelled again without
      touching the ledger. */
  function PatientCancelGuarded(db: Db, userId: string, id: nat): Outcome {
    if id < |db.appointments| && db.appointments[id].userId == userId && db.appointments[id].cancelled
    then Outcome(Success(Cancelled), db)
    else PatientCancel(db, userId, id)
  }

  const OrderRefused := "Appointment Cancelled or not found"

  /** paymentRazorpay: a missing or cancelled appointment is refused; otherwise
      an order for the amount in the currency's smallest unit (times 100) with
      the appointment id as receipt. */
  function PaymentRazorpay(db: Db, id: nat): (r: Reply)
    ensures r.Order? <==> id < |db.appointments| && !db.appointments[id].cancelled
    ensures r.Order? ==> r.amount == db.appointments[id].amount * 100 && r.receipt == id
    ensures !r.Order? ==> r == Failure(OrderRefused)
  {
    if id >= |db.appointments| || db.appointments[id].cancelled then Failure(OrderRefused)
    else Order(db.appointments[id].amount * 100, id)
  }

  const PaymentSuccessful := "Payment Successful"
  const PaymentFailed := "Payment Failed"

  /** verifyRazorpay on the order the gateway reports: status 'paid' marks the
      receipt's appointment paid (an unknown receipt updates nothing). */
  function VerifyRazorpay(db: Db, status: string, receipt: nat): (r: Outcome)
    ensures r.reply.Success? <==> status == "paid"
    ensures status != "paid" ==> r == Outcome(Failure(PaymentFailed), db)
    ensures r.db.users == db.users && r.db.doctors == db.doctors
    ensures |r.db.appointments| == |db.appointments|
    ensures forall j :: 0 <= j < |db.appointments| ==>
              r.db.appointments[j]
              == if j == receipt && status == "paid" then db.appointments[j].(payment := true)
                 else db.appointments[j]
  {
    if status == "paid" then
      var db' := if receipt < |db.appointments|
                 then db.(appointments := db.appointments[receipt := db.appointments[receipt].(payment := true)])
                 else db;
      Outcome(Success(PaymentSuccessful), db')
    else Outcome(Failure(PaymentFailed), db)
  }

  // -------------------------------------------------------------- doctors

  /** The appointment exists and belongs to the doctor. */
  predicate OwnedBy(db: Db, id: nat, docId: string) {
    id < |db.appointments| && db.appointments[id].docId == docId
  }

  /** appointmentCancel of the doctor panel: only the flag changes; the label
      stays in the ledger. Both replies carry the same message. */
  function DoctorCancel(db: Db, docId: string, id: nat): (r: Outcome)
    ensures r.reply == if OwnedBy(db, id, docId) then Success(Cancelled) else Failure(Cancelled)
    ensures r.db.users == db.users && r.db.doctors == db.doctors
    ensures |r.db.appointments| == |db.appointments|
    ensures forall j :: 0 <= j < |db.appointments| ==>
              r.db.appointments[j]
              == if j == id && OwnedBy(db, id, docId) then db.appointments[j].(cancelled := true)
                 else db.appointments[j]
  {
    if OwnedBy(db, id, docId) then Outcome(Success(Cancelled), MarkCancelled(db, id))
    else Outcome(Failure(Cancelled), db)
  }

  const Completed := "Appointment Completed"

  /** appointmentComplete: the failure reply says 'Appointment Cancelled'. */
  function DoctorComplete(db: Db, docId: string, id: nat): (r: Outcome)
    ensures r.reply.Success? <==> OwnedBy(db, id, docId)
    ensures !r.reply.Success? ==> r == Outcome(Failure(Cancelled), db)
    ensures r.db.users == db.users && r.db.doctors == db.doctors
    ensures |r.db.appointments| == |db.appointments|
    ensures forall j :: 0 <= j < |db.appointments| ==>
              r.db.appointments[j]
              == if j == id && OwnedBy(db, id, docId) then db.appointments[j].(isCompleted := true)
                 else db.appointments[j]
  {
    if OwnedBy(db, id, docId) then
      Outcome(Success(Completed),
              db.(appointments := db.appointments[id := db.appointments[id].(isCompleted := true)]))
    else Outcome(Failure(Cancelled), db)
  }

  const AvailabilityChanged := "Availablity Changed"

  /** changeAvailablity: an unknown doctor makes `docData.available` throw. */
  function ChangeAvailability(db: Db, docId: string): (r: Outcome)
    ensures r.reply == Thrown <==> forall j :: 0 <= j < |db.doctors| ==> db.doctors[j].id != docId
    ensures r.reply == Thrown ==> r.db == db
    ensures r.db.users == db.users && r.db.appointments == db.appointments
    ensures |r.db.doctors| == |db.doctors|
    ensures forall j :: 0 <= j < |db.doctors| ==>
              r.db.doctors[j]
              == if Some(j) == DoctorById(db.doctors, docId)
                 then db.doctors[j].(available := !db.doctors[j].available)
                 else db.doctors[j]
  {
    match DoctorById(db.doctors, docId)
    case None => Outcome(Thrown, db)
    case Some(k) =>
      var doc := db.doctors[k];
      Outcome(Success(AvailabilityChanged),
              db.(doctors := db.doctors[k := doc.(available := !doc.available)]))
  }

  /** loginDoctor. */
  function LoginDoctor(db: Db, email: string, password: string): (r: Reply)
    ensures r.Session? <==>
              exists k :: DoctorByEmail(db.doctors, email) == Some(k)
                && PasswordMatches(password, db.doctors[k].password)
    ensures r.Session? ==> r == Session(db.doctors[DoctorByEmail(db.doctors, email).value].id, "")
    ensures !r.Session? ==> r == Failure(InvalidCredentials)
  {
    match DoctorByEmail(db.doctors, email)
    case None => Failure(InvalidCredentials)
    case Some(k) =>
      if PasswordMatches(password, db.doctors[k].password) then Session(db.doctors[k].id, "")
      else Failure(InvalidCredentials)
  }

  /** resetDoctorPassword: the same checks as the patient reset, on doctors. */
  function ResetDoctorPassword(db: Db, token: string, newPassword: string, now: int): (r: Outcome)
    ensures Utf16Length(newPassword) < 8 ==> r == Outcome(Failure(WeakNewPassword), db)
    ensures Utf16Length(newPassword) >= 8 && !(exists j :: 0 <= j < |db.doctors| && Live(db.doctors[j].reset, token, now))
            ==> r == Outcome(Failure(BadResetToken), db)
    ensures !r.reply.Success? ==> r.db == db
    ensures r.reply.Success? <==>
              Utf16Length(newPassword) >= 8 && exists j :: 0 <= j < |db.doctors| && Live(db.doctors[j].reset, token, now)
    ensures r.reply.Success? ==>
              r.reply == Success(PasswordChanged) && DoctorByReset(db.doctors, token, now).Some?
              && var k := DoctorByReset(db.doctors, token, now).value;
                 r.db == db.(doctors := db.doctors[k := db.doctors[k].(password := Digest(newPassword), reset := None)])
  {
    if newPassword == "" || Utf16Length(newPassword) < 8 then Outcome(Failure(WeakNewPassword), db)
    else match DoctorByReset(db.doctors, token, now)
      case None => Outcome(Failure(BadResetToken), db)
      case Some(k) =>
        var d := db.doctors[k];
        Outcome(Success(PasswordChanged),
                db.(doctors := db.doctors[k := d.(password := Digest(newPassword), reset := None)]))
  }

  // --------------------------------------------------------------- lemmas

  /** The first match is the position that matches with no match before it. */
  lemma FirstWhereIs<T>(s: seq<T>, p: T -> bool, n: nat)
    requires n < |s| && p(s[n]) && forall j :: 0 <= j < n ==> !p(s[j])
    ensures FirstWhere(s, p) == Some(n)
  {
  }

  /** A freshly registered account cannot log in, whatever password is tried,
      until its email is verified. */
  lemma RegisterThenLoginRefused(db: Db, name: string, email: string, password: string,
                                 isEmail: string -> bool, newId: string, token: string, now: int,
                                 mailSent: bool, attempt: string)
    requires !Register(db, name, email, password, isEmail, newId, token, now, mailSent).reply.Failure?
    ensures LoginUser(Register(db, name, email, password, isEmail, newId, token, now, mailSent).db, email, attempt)
            == Failure(Unverified)
  {
    var db1 := Register(db, name, email, password, isEmail, newId, token, now, mailSent).db;
    FirstWhereIs(db1.users, (u: UserAccount) => u.email == email, |db.users|);
  }

  /** Registering, then verifying the mailed token within a day, then logging in
      with the registered password succeeds for the new account (provided no
      older account holds a live grant with the same token). */
  lemma RegisterVerifyLogin(db: Db, name: string, email: string, password: string,
                            isEmail: string -> bool, newId: string, token: string, now: int,
                            mailSent: bool, later: int)
    requires !Register(db, name, email, password, isEmail, newId, token, now, mailSent).reply.Failure?
    requires later < now + DayMillis
    requires forall j :: 0 <= j < |db.users| ==> !Live(db.users[j].verification, token, later)
    ensures var db1 := Register(db, name, email, password, isEmail, newId, token, now, mailSent).db;
            var v := VerifyEmail(db1, token, later);
            v.reply == Session(newId, Verified) && LoginUser(v.db, email, password) == Session(newId, "")
  {
    var db1 := Register(db, name, email, password, isEmail, newId, token, now, mailSent).db;
    var n := |db.users|;
    FirstWhereIs(db1.users, (u: UserAccount) => Live(u.verification, token, later), n);
    var v := VerifyEmail(db1, token, later);
    assert v.db.users == db1.users[n := db1.users[n].(isVerified := true, verification := None)];
    FirstWhereIs(v.db.users, (u: UserAccount) => u.email == email, n);
  }

  /** After a successful reset the new password logs the account in and a
      different old one no longer does. */
  lemma ResetThenLogin(db: Db, token: string, newPassword: string, now: int, oldPassword: string)
    requires ResetPassword(db, token, newPassword, now).reply.Success?
    requires var k := UserByReset(db.users, token, now).value;
             UserByEmail(db.users, db.users[k].email) == Some(k) && db.users[k].isVerified
    ensures var k := UserByReset(db.users, token, now).value;
            var db1 := ResetPassword(db, token, newPassword, now).db;
            LoginUser(db1, db.users[k].email, newPassword) == Session(db.users[k].id, "")
            && (oldPassword != newPassword ==> LoginUser(db1, db.users[k].email, oldPassword) == Failure(InvalidCredentials))
  {
    var k := UserByReset(db.users, token, now).value;
    var email := db.users[k].email;
    var db1 := ResetPassword(db, token, newPassword, now).db;
    assert db1.users == db.users[k := db.users[k].(password := Digest(newPassword), reset := None)];
    FirstWhereIs(db1.users, (u: UserAccount) => u.email == email, k);
  }

  /** Every doctor's ledger lists each time label at most once per day. */
  predicate LedgersDistinct(db: Db) {
    forall j :: 0 <= j < |db.doctors| ==> Distinct(db.doctors[j].slotsBooked)
  }

  /** Bookings taken one after another never put a time label twice into a day. */
  lemma BookKeepsLedgersDistinct(db: Db, userId: string, docId: string, slotDate: string, slotTime: string, now: int)
    requires LedgersDistinct(db)
    ensures LedgersDistinct(Book(db, userId, docId, slotDate, slotTime, now).db)
  {
    var r := Book(db, userId, docId, slotDate, slotTime, now);
    if r.reply == Success(AppointmentBooked) {
      var k := DoctorById(db.doctors, docId).value;
      ReservePreservesDistinct(db.doctors[k].slotsBooked, slotDate, slotTime);
    }
  }

  /** The order for a new appointment charges the doctor's fee at booking time,
      in the currency's smallest unit, with the appointment id as receipt. */
  lemma BookThenPay(db: Db, userId: string, docId: string, slotDate: string, slotTime: string, now: int)
    requires Book(db, userId, docId, slotDate, slotTime, now).reply == Success(AppointmentBooked)
    ensures var fees := db.doctors[DoctorById(db.doctors, docId).value].fees;
            PaymentRazorpay(Book(db, userId, docId, slotDate, slotTime, now).db, |db.appointments|)
            == Order(fees * 100, |db.appointments|)
  {
    var db1 := Book(db, userId, docId, slotDate, slotTime, now).db;
    assert db1.appointments[|db.appointments|].amount == db.doctors[DoctorById(db.doctors, docId).value].fees;
  }

  /** Booking a slot and cancelling it as its patient gives the doctor's day the
      list it had before (an empty list if the day had none) and leaves the new
      appointment cancelled. */
  lemma BookThenCancel(db: Db, userId: string, docId: string, slotDate: string, slotTime: string, now: int)
    requires Book(db, userId, docId, slotDate, slotTime, now).reply == Success(AppointmentBooked)
    ensures var k := DoctorById(db.doctors, docId).value;
            var doc := db.doctors[k];
            var c := PatientCancel(Book(db, userId, docId, slotDate, slotTime, now).db, userId, |db.appointments|);
            c.reply == Success(Cancelled)
            && c.db.doctors == db.doctors[k := doc.(slotsBooked := doc.slotsBooked[slotDate := Booked(doc.slotsBooked, slotDate)])]
            && c.db.appointments
               == db.appointments + [Appointment(userId, docId, slotDate, slotTime, doc.fees, now, true, false, false)]
  {
    var k := DoctorById(db.doctors, docId).value;
    var doc := db.doctors[k];
    var before := Booked(doc.slotsBooked, slotDate);
    var db1 := Book(db, userId, docId, slotDate, slotTime, now).db;
    var n := |db.appointments|;
    assert db1.appointments[n] == Appointment(userId, docId, slotDate, slotTime, doc.fees, now, false, false, false);
    FirstWhereIs(db1.doctors, (d: DoctorAccount) => d.id == docId, k);
    WithoutAppend(before, slotTime);
    WithoutAbsent(before, slotTime);
    var ledger := doc.slotsBooked[slotDate := before + [slotTime]];
    assert db1.doctors[k].slotsBooked == ledger;
    assert ledger[slotDate := Without(before + [slotTime], slotTime)] == doc.slotsBooked[slotDate := before];
    assert MarkCancelled(db1, n).appointments == db.appointments + [db1.appointments[n].(cancelled := true)];
  }

  /** An owner's cancel drops every copy of the label from that day and keeps
      every other label of the day as often as it was there. */
  lemma PatientCancelReleases(db: Db, userId: string, id: nat)
    requires PatientCancel(db, userId, id).reply == Success(Cancelled)
    ensures var a := db.appointments[id];
            var k := DoctorById(db.doctors, a.docId).value;
            var before := db.doctors[k].slotsBooked;
            var after := PatientCancel(db, userId, id).db.doctors[k].slotsBooked;
            after.Keys == before.Keys
            && multiset(after[a.slotDate]) == multiset(before[a.slotDate])[a.slotTime := 0]
            && forall d :: d in before && d != a.slotDate ==> after[d] == before[d]
  {
    var a := db.appointments[id];
    var k := DoctorById(db.doctors, a.docId).value;
    WithoutCounts(db.doctors[k].slotsBooked[a.slotDate], a.slotTime);
  }

  /** Switching a doctor's availability twice restores the store. */
  lemma ChangeAvailabilityTwice(db: Db, docId: string)
    requires DoctorById(db.doctors, docId).Some?
    ensures ChangeAvailability(ChangeAvailability(db, docId).db, docId) == Outcome(Success(AvailabilityChanged), db)
  {
    var k := DoctorById(db.doctors, docId).value;
    var db1 := ChangeAvailability(db, docId).db;
    FirstWhereIs(db1.doctors, (d: DoctorAccount) => d.id == docId, k);
    assert db1.doctors == db.doctors[k := db.doctors[k].(available := !db.doctors[k].available)];
    assert db1.doctors[k := db1.doctors[k].(available := !db1.doctors[k].available)] == db.doctors;
  }
}
