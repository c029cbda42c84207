# DocSpot booking core in Dafny

DocSpot is a doctor-appointment web application. Patients register, verify their
e-mail, log in, browse doctors, book a half-hour slot and pay online. Doctors and
an administrator manage the appointments from a separate panel. This project
models the parts of the application that decide what is stored and what is shown:

- **The controllers** (`Backend`). Each controller of `userController.js` and
  `doctorController.js` is a function from the database before a request to
  the reply and the database after it. Bookings, cancellations, payments,
  logins, e-mail verification and password resets are covered.
- **The stored objects** (`ClinicStore.Store`). A class whose fields are the
  three collections (users, doctors, appointments). Each writing controller is a
  method that updates those fields in place. Each method is proved to leave
  exactly the state the matching `Backend` function describes.
- **The slot ledger** (`SlotLedger`). The doctor's `slots_booked` map from a day
  label to the time labels booked on that day, with its reserve and release steps.
- **The booking invariant** (`BookingInvariant`). No two active appointments of
  one doctor share a day and a time, and every active appointment's label is in
  its doctor's ledger. It is proved for every sequence of requests, with the
  guarded cancel described under Findings. A five-request trace shows the
  invariant broken by the cancel as written.
- **The doctor dashboard** (`Dashboard`): earnings, distinct patients and the
  latest appointments, computed by the controller's loops.
- **The booking page** (`SlotGenerator`, `DateLabels`, `TimeFormat`). The seven
  days of half-hour slots, the `D_M_YYYY` day labels the ledger is keyed by,
  the 12-hour time labels, and the request the page sends.
- **The contact page's support banner** (`SupportHours`).
- **The appointment lists and dashboards of both front ends**
  (`AppointmentViews`): badges, buttons, amounts, greetings and confirm dialogs.
- **The doctors page and the related-doctors list** (`DoctorFilters`).
- **The two password-reset forms** (`ResetForms`).

JavaScript behaviour the code relies on is written out in `JsText`:

- `parseInt` and `Number`.
- Template-literal rendering of numbers.
- `split`.
- `toLowerCase`, on the capitals A to Z only (see "## Left out").
- `padStart`.
- String `length`, counted in UTF-16 code units.
- NaN, modelled as a `JsNumber` value.
- Falsy empty strings.

Modelling choices:

- The database is a value `Db`. An appointment's id is its position in the
  appointments sequence. A user or doctor is found by the first matching
  record, as `findOne` and `findById` find it.
- Password hashing is an ideal digest: comparing is equality of digests.
  A signed session token is the account id it names.
- A value the server draws at random or reads from the clock is a parameter:
  verification and reset tokens, new ids, `Date.now()`, and the outcome of
  sending a mail. On the pages, the current hour and minute, the current
  weekday and the seven calendar days are parameters too.
- The locale-dependent `toLocaleTimeString` label of a slot is a parameter
  `render`. A lemma that needs it requires only that distinct times render
  differently.
- An exception that a controller's `catch` turns into a failure reply is the
  reply `Thrown`. An example is reading a field of a doctor who is not there.

Five behaviours of the code are easy to miss, and the model keeps them:

- A day other than today offers 22 candidate slots, from 10:00 to 20:30; the last slot starts before 21:00.
- The doctor panel's cancel sets the flag but does not release the slot.
- The admin fee cell shows the currency sign before "N/A" as well as before a number.
- The doctor panel completes an appointment whatever its `cancelled` flag says.
- Password lengths are JavaScript string lengths, counted in UTF-16 code units (`JsText.Utf16Length`): a character outside the Basic Multilingual Plane counts twice.

## Model

| member | source | states |
|---|---|---|
| Backend.FirstWhere | backend/controllers/userController.js:35 | the position found holds a match, and no earlier position does; none is found only when nothing matches |
| Backend.FirstWhereIs | backend/controllers/userController.js:78-85 | the first matching record is the one the lookup returns, so lookups by e-mail, token or id name that record |
| Backend.Register | backend/controllers/userController.js:16-71 | missing fields are refused first, then an invalid e-mail, then a password under 8 UTF-16 units, then an e-mail already registered, each with its own reply; an account is created exactly when every field is given, the e-mail is valid, the password has 8 units or more and the e-mail is not registered: one unverified user with the hashed password and a day-long verification grant is appended, and the reply says whether the mail went out; every refusal leaves the store unchanged |
| Backend.VerifyEmail | backend/controllers/userController.js:74-107 | succeeds exactly when some user holds a live verification grant for the token; on success the first such user, the one `findOne` returns, becomes verified, loses the grant and gets a session; otherwise the store is unchanged |
| Backend.LoginUser | backend/controllers/userController.js:111-137 | a session exactly for a known, verified user whose password matches; an unknown e-mail, an unverified account and a wrong password each get their own refusal |
| Backend.ResetPassword | backend/controllers/userController.js:171-207 | a new password under 8 UTF-16 units is refused first, then a token no user holds live is refused as a bad token; success exactly when the password is long enough and some user holds a live reset grant, and then the first such user, the one `findOne` returns, has the hash replaced and the grant cleared; every reply other than success leaves the store unchanged |
| Backend.Book | backend/controllers/userController.js:256-310 | an unknown doctor throws, an unavailable doctor or a label already booked that day is refused, each iff its condition holds; the booking succeeds exactly for a known, available doctor whose day does not hold the label, and then appends the label to that day and one unpaid, active appointment at the doctor's fee; a refusal changes nothing |
| Backend.PatientCancel | backend/controllers/userController.js:313-343 | an unknown id throws, another user's appointment is refused; the cancel succeeds exactly for the owner of the appointment whose doctor exists and whose day is in the doctor's ledger; the owner's cancel sets the flag and filters the label out of the doctor's day, even when the appointment was already cancelled |
| Backend.PaymentRazorpay | backend/controllers/userController.js:361-387 | an order exactly for an existing appointment that is not cancelled, for the amount times 100 with the appointment as receipt; otherwise the refusal message |
| Backend.VerifyRazorpay | backend/controllers/userController.js:390-406 | success exactly for status 'paid', which sets the receipt's payment flag and changes nothing else; any other status changes nothing |
| Backend.DoctorCancel | backend/controllers/doctorController.js:122-140 | the doctor's own appointment gets the cancelled flag and nothing else changes (the ledger keeps the label); another doctor's appointment is refused |
| Backend.DoctorComplete | backend/controllers/doctorController.js:143-161 | the doctor's own appointment gets the completed flag whatever its other flags; otherwise a refusal that changes nothing |
| Backend.ChangeAvailability | backend/controllers/doctorController.js:178-191 | an unknown doctor throws and changes nothing; otherwise that doctor's `available` is negated and nothing else changes |
| Backend.LoginDoctor | backend/controllers/doctorController.js:10-35 | a session exactly for a known doctor whose password matches; every other case gets "Invalid credentials" |
| Backend.ResetDoctorPassword | backend/controllers/doctorController.js:69-104 | the patient reset's checks applied to doctors: a length under 8 UTF-16 units first, then a token no doctor holds live; success exactly when both pass, and then the first doctor holding it has the hash replaced and the grant cleared; every other reply leaves the store unchanged |
| Backend.RegisterThenLoginRefused | backend/controllers/userController.js:111-122 | a newly registered account cannot log in with any password before it is verified |
| Backend.RegisterVerifyLogin | backend/controllers/userController.js:16-137 | registering, verifying the mailed token within the day and logging in with the same password yields a session for the new account |
| Backend.ResetThenLogin | backend/controllers/userController.js:171-207 | after a successful reset the new password logs in and the old one, if different, is refused |
| Backend.BookKeepsLedgersDistinct | backend/controllers/userController.js:270-280 | a booking never puts a time label twice into one day of a ledger |
| Backend.BookThenPay | backend/controllers/userController.js:282-295 | the order for a new appointment charges the doctor's fee at booking time, in the smallest currency unit |
| Backend.BookThenCancel | backend/controllers/userController.js:256-343 | booking a slot and cancelling it as its patient succeeds, gives the doctor's day the list it had before (empty if it had none) and leaves the new appointment cancelled |
| Backend.PatientCancelReleases | backend/controllers/userController.js:324-335 | an owner's cancel drops every copy of the label from that day and keeps every other day and every other label |
| Backend.ChangeAvailabilityTwice | backend/controllers/doctorController.js:178-191 | toggling availability twice restores the store |
| ClinicStore.Store.RegisterUser | backend/controllers/userController.js:16-71 | the reply and the new collections are those of `Backend.Register` on the old collections |
| ClinicStore.Store.VerifyEmailToken | backend/controllers/userController.js:74-107 | the reply and the new collections are those of `Backend.VerifyEmail` |
| ClinicStore.Store.ResetUserPassword | backend/controllers/userController.js:171-207 | the reply and the new collections are those of `Backend.ResetPassword` |
| ClinicStore.Store.BookAppointment | backend/controllers/userController.js:256-310 | the reply and the new collections are those of `Backend.Book`; the ledger is copied, extended and written back |
| ClinicStore.Store.CancelAppointment | backend/controllers/userController.js:313-343 | the reply and the new collections are those of `Backend.PatientCancel`; the flag is stored before the ledger is filtered |
| ClinicStore.Store.VerifyPayment | backend/controllers/userController.js:390-406 | the reply and the new collections are those of `Backend.VerifyRazorpay` |
| ClinicStore.Store.CancelByDoctor | backend/controllers/doctorController.js:122-140 | the reply and the new collections are those of `Backend.DoctorCancel` |
| ClinicStore.Store.CompleteByDoctor | backend/controllers/doctorController.js:143-161 | the reply and the new collections are those of `Backend.DoctorComplete` |
| ClinicStore.Store.ToggleAvailability | backend/controllers/doctorController.js:178-191 | the reply and the new collections are those of `Backend.ChangeAvailability` |
| ClinicStore.Store.ResetDoctorPasswordToken | backend/controllers/doctorController.js:69-104 | the reply and the new collections are those of `Backend.ResetDoctorPassword` |
| SlotLedger.Without | backend/controllers/userController.js:333-335 | the filtered list is no longer than the list; its contents, every copy of the label gone and every other label kept as often, are stated by `SlotLedger.WithoutCounts` |
| SlotLedger.WithoutCounts | backend/controllers/userController.js:333-335 | the filter removes every copy of the label and keeps every other label exactly as often as before |
| SlotLedger.WithoutRemoves | backend/controllers/userController.js:333-335 | the label is gone and every other label is present exactly when it was before |
| SlotLedger.WithoutAbsent | backend/controllers/userController.js:333-335 | filtering out a label that is not there leaves the list unchanged |
| SlotLedger.Reserve | backend/controllers/userController.js:270-280 | refused exactly when the day already lists the label |
| SlotLedger.Release | backend/controllers/userController.js:333-335 | fails exactly when the ledger has no entry for the day |
| SlotLedger.ReserveEffect | backend/controllers/userController.js:270-280 | a reservation appends the label to the day's list (creating the day if needed) and leaves every other day as it was |
| SlotLedger.ReleaseEffect | backend/controllers/userController.js:333-335 | a release filters the day's list and leaves every other day as it was |
| SlotLedger.ReserveThenRelease | backend/controllers/userController.js:270-335 | reserving a free label and releasing it gives the day its earlier list without the label |
| SlotLedger.ReleaseIdempotent | backend/controllers/userController.js:333-335 | releasing twice is releasing once |
| SlotLedger.ReservePreservesDistinct | backend/controllers/userController.js:270-280 | a reservation keeps every day free of repeated labels |
| SlotLedger.WithoutKeepsNoRepeats | backend/controllers/userController.js:333-335 | filtering keeps a list free of repeats |
| SlotLedger.ReleasePreservesDistinct | backend/controllers/userController.js:333-335 | a release keeps every day free of repeated labels |
| BookingInvariant.EmptyStoreInvariant | backend/controllers/userController.js:256-343 | a store without appointments satisfies the booking invariant |
| BookingInvariant.DoctorByIdStable | backend/controllers/userController.js:261 | a lookup by id finds the same doctor after requests that change no doctor's id |
| BookingInvariant.FlagChangesKeepInvariant | backend/controllers/doctorController.js:122-161 | requests that keep every doctor's id and ledger and every appointment's slot, and only ever make an appointment inactive, keep the invariant |
| BookingInvariant.BookKeepsInvariant | backend/controllers/userController.js:256-310 | every booking keeps the invariant: the new appointment's label was free and is now in the ledger |
| BookingInvariant.GuardedCancelKeepsInvariant | backend/controllers/userController.js:313-343 | the cancel that skips an already-cancelled appointment keeps the invariant |
| BookingInvariant.GuardedStepKeepsInvariant | backend/controllers/userController.js:256-406 | every request (book, guarded cancel, payment, doctor cancel, complete, availability) keeps the invariant |
| BookingInvariant.RunGuardedKeepsInvariant | backend/controllers/userController.js:256-343 | every sequence of requests from an invariant store keeps the invariant, so no two active appointments of a doctor share a day and time |
| BookingInvariant.BookFreeSlot | backend/controllers/userController.js:256-310 | with one doctor, booking a free label appends it to the day and appends the active appointment |
| BookingInvariant.CancelWithOnlyDoctor | backend/controllers/userController.js:313-343 | with one doctor, the owner's cancel flags the appointment and filters its label from the day |
| BookingInvariant.RunFive | backend/controllers/userController.js:256-343 | a run of five requests is the five steps applied in order |
| BookingInvariant.TraceBookA | backend/controllers/userController.js:256-310 | first step of the trace: patient a books 10:00 |
| BookingInvariant.TraceCancelA | backend/controllers/userController.js:313-343 | second step: a cancels and the label is released |
| BookingInvariant.TraceBookB | backend/controllers/userController.js:256-310 | third step: patient b books the freed 10:00 |
| BookingInvariant.TraceCancelAAgain | backend/controllers/userController.js:313-343 | fourth step: a cancels the cancelled appointment again and b's label is released |
| BookingInvariant.RepeatedCancelDoubleBooks | backend/controllers/userController.js:313-343 | from an invariant store, five accepted requests leave b and c both actively booked at the same doctor, day and time |
| BookingInvariant.TraceBookC | backend/controllers/userController.js:256-310 | fifth step: patient c books 10:00 although b holds it |
| Dashboard.AppointmentsOf | backend/controllers/doctorController.js:229 | the doctor's appointments are at most all appointments; which ones are listed is stated by `Dashboard.AppointmentsOfMembers` |
| Dashboard.AppointmentsOfMembers | backend/controllers/doctorController.js:229 | an appointment is listed exactly when it is in the store and belongs to the doctor |
| Dashboard.EarningsSnoc | backend/controllers/doctorController.js:232-238 | earnings of a list with one more appointment grow by that appointment's amount exactly when it is completed or paid |
| Dashboard.EarningsStep | backend/controllers/doctorController.js:232-238 | the doctor's earnings grow by the last appointment's credit exactly when it is theirs |
| Dashboard.PatientsOfSnoc | backend/controllers/doctorController.js:240-246 | the distinct patients of a list with one more appointment are the earlier ones plus its patient |
| Dashboard.Reversed | backend/controllers/doctorController.js:252 | entry `i` of the reversed list is entry `i` from the end of the list |
| Dashboard.ReversedTwice | backend/controllers/doctorController.js:252 | reversing twice gives the list back |
| Dashboard.DistinctCount | backend/controllers/doctorController.js:240-250 | a list without repeats has as many entries as distinct values, so the patient count is the number of distinct patients |
| Dashboard.DoctorDashboard | backend/controllers/doctorController.js:225-261 | the loops compute the sum of amounts over the doctor's completed or paid appointments, the number of their appointments, the number of distinct patients and the list newest first |
| Dashboard.EarningsOfUpdate | backend/controllers/doctorController.js:232-238 | replacing one appointment of the doctor changes the earnings by the difference of its credits |
| Dashboard.BookKeepsEarnings | backend/controllers/userController.js:282-301 | a booking leaves every doctor's earnings unchanged |
| Dashboard.PaymentThenCompleteEarnings | backend/controllers/doctorController.js:232-238 | paying and then completing an appointment adds its amount to the earnings once, not twice |
| JsText.DigitChar | frontend/src/pages/Appointment.jsx:45 | the digit character of a value below ten is a decimal digit |
| JsText.DigitValue | frontend/src/pages/Appointment.jsx:39 | the value of a digit is below ten and maps back to the digit |
| JsText.NatToString | frontend/src/pages/Appointment.jsx:45 | a rendered natural number is a non-empty string of digits, one digit exactly below ten |
| JsText.ShortNumeral | frontend/src/pages/Appointment.jsx:75-78 | a number below a hundred renders in at most two digits |
| JsText.IntToString | frontend/src/pages/Appointment.jsx:49 | a rendered integer is non-empty and a non-negative one renders as its digits |
| JsText.DigitsValueOfNatToString | frontend/src/pages/Appointment.jsx:45 | the digits a number renders to have that number as their value |
| JsText.NatToStringInjective | frontend/src/pages/Appointment.jsx:104-108 | distinct numbers render differently |
| JsText.DigitPrefix | frontend/src/pages/Appointment.jsx:39 | the prefix is made of digits and is the longest such prefix |
| JsText.DigitPrefixOfDigits | frontend/src/pages/Appointment.jsx:39 | a string of digits is its own digit prefix |
| JsText.ParseInt | frontend/src/pages/Appointment.jsx:39 | NaN exactly when no digit follows the optional sign |
| JsText.ParseIntOfDigits | frontend/src/pages/Appointment.jsx:39 | `parseInt` reads a string of digits as its value |
| JsText.ToNumber | frontend/src/pages/MyAppointments.jsx:29 | a number exactly for a string of digits with at most one leading sign; negative only after a minus sign |
| JsText.ToNumberReadsBack | frontend/src/pages/MyAppointments.jsx:29 | `Number` reads back the decimal numeral of every natural number, with or without a sign |
| JsText.Utf16Length | backend/controllers/userController.js:31 | a string's `length` in UTF-16 units lies between its number of characters and twice that |
| JsText.Utf16LengthOfPlaneZero | backend/controllers/userController.js:31 | for characters of the Basic Multilingual Plane the `length` is the number of characters |
| JsText.FourEmojiAreEight | backend/controllers/userController.js:31 | four characters outside the Basic Multilingual Plane have `length` 8, so they pass the length check |
| JsText.Split | frontend/src/pages/MyAppointments.jsx:27 | a split always has at least one piece; the pieces are given by `JsText.SplitWithout` and `JsText.SplitAt` |
| JsText.SplitWithout | frontend/src/pages/MyAppointments.jsx:27 | a string without the separator is one piece |
| JsText.SplitAt | frontend/src/pages/MyAppointments.jsx:27 | splitting at the first separator gives the piece before it and then the pieces of the rest |
| JsText.DigitsExclude | frontend/src/pages/Appointment.jsx:38 | a string of digits holds no separator or letter |
| JsText.LowerChar | frontend/src/pages/Appointment.jsx:30 | the capitals A to Z move to their lower case and every other character stays |
| JsText.Lower | frontend/src/pages/Appointment.jsx:30 | lower-casing keeps the length |
| JsText.LowerAt | frontend/src/pages/Appointment.jsx:30 | each character of the lower-cased string is the lower case of the character there |
| JsText.LowerOfNoCapitals | frontend/src/pages/Appointment.jsx:30 | a string without capitals is its own lower case |
| JsText.ContainsPairAt | frontend/src/pages/Appointment.jsx:33 | a needle found at a position is included |
| JsText.NoPairWithout | frontend/src/pages/Appointment.jsx:33 | without the needle's first character the needle is not included |
| JsText.Pad2 | frontend/src/pages/Contact.jsx:210 | the padded numeral is at least two digits, exactly two with the number's value below a hundred |
| TimeFormat.Hour12 | frontend/src/pages/Contact.jsx:209 | the 12-hour dial shows an hour from 1 to 12 |
| TimeFormat.Hour12OnTheDial | frontend/src/pages/Contact.jsx:207-209 | the dial hour and the AM/PM half give the hour of the day back |
| TimeFormat.HourLabelOfDayHour | frontend/src/pages/Appointment.jsx:42-50 | for an hour of the day the if-chain prints the 12-hour dial hour and the half of the day |
| TimeFormat.HourLabelAtTwelve | frontend/src/pages/Appointment.jsx:42-47 | midnight and noon print as 12 AM and 12 PM |
| TimeFormat.HourLabelMorning | frontend/src/pages/Appointment.jsx:44-45 | a morning hour prints unchanged with AM |
| TimeFormat.HourLabelAfternoon | frontend/src/pages/Appointment.jsx:48-49 | an afternoon hour prints less twelve with PM |
| TimeFormat.HourLabelSuffix | frontend/src/pages/Appointment.jsx:42-50 | whatever the parsed hour, NaN included, the label ends in " AM" or " PM" |
| TimeFormat.FormatTimeTo12HourShape | frontend/src/pages/Appointment.jsx:27-50 | an empty value or one mentioning am/pm is returned unchanged; any other value becomes a label ending in " AM" or " PM" |
| TimeFormat.FormatTimeTo12HourIdempotent | frontend/src/pages/Appointment.jsx:27-50 | formatting an already formatted label changes nothing |
| TimeFormat.MeridiemSuffixMentioned | frontend/src/pages/Appointment.jsx:30-35 | a label ending in " AM" or " PM" is recognised as already formatted |
| TimeFormat.ClockDigitsHaveNoMeridiem | frontend/src/pages/Appointment.jsx:30-35 | a text of digits and colons is never taken as already formatted |
| TimeFormat.LowerOfClockDigits | frontend/src/pages/Appointment.jsx:30 | lower-casing a text of digits and colons leaves it unchanged |
| TimeFormat.FormatTimeTo12HourOfPieces | frontend/src/pages/Appointment.jsx:38-40 | the if-chain works on the parsed hour and the minutes piece, "00" when absent |
| TimeFormat.ClockText | frontend/src/pages/Appointment.jsx:38 | "H:M" built from digit strings holds only digits and the colon |
| TimeFormat.TwentyFourHourLabel | frontend/src/pages/Appointment.jsx:27-50 | a well-formed "H:MM" with an hour up to 23 becomes the dial hour, the same minutes and the half of the day |
| TimeFormat.HourOnlyLabel | frontend/src/pages/Appointment.jsx:40 | an hour without minutes is shown on the hour, with "00" |
| TimeFormat.FormatTime | frontend/src/pages/Contact.jsx:205-212 | the contact-page label has at least the seven characters of "H:MM AM" |
| TimeFormat.ReadClock | frontend/src/pages/Contact.jsx:205-212 | a label that reads back names a minute of the day |
| TimeFormat.ReadClockOfSlices | frontend/src/pages/Contact.jsx:205-212 | a label made of hour, colon, two minute digits, space and AM/PM reads back as that time |
| TimeFormat.ReadClockOfParts | frontend/src/pages/Contact.jsx:205-212 | a label assembled from its parts reads back as that time |
| TimeFormat.ReadClockOfDayLabel | frontend/src/pages/Contact.jsx:205-212 | a label built from an hour of the day and two minute digits reads back as that hour and minute |
| TimeFormat.FormatTimeReadsBack | frontend/src/pages/Contact.jsx:205-212 | every contact-page label names exactly the minute it was made from |
| TimeFormat.FormattersAgree | frontend/src/pages/Appointment.jsx:27-50 | the booking page's formatter on "H:MM" and the contact page's formatter on the same minute give the same label |
| DateLabels.MonthName | frontend/src/pages/MyAppointments.jsx:23-29 | the month's short name for 1 to 12, "undefined" for any other number or NaN |
| DateLabels.DateLabelPieces | frontend/src/pages/Appointment.jsx:104-108 | a day label splits at its underscores into the day, month and year numerals |
| DateLabels.SlotDateFormatOfLabel | frontend/src/pages/MyAppointments.jsx:26-30 | formatting a day label shows the day, the month's short name and the year |
| DateLabels.DateLabelInjective | frontend/src/pages/Appointment.jsx:75-79 | distinct days have distinct labels, so the ledger never mixes two days |
| DateLabels.SlotDateFormatBadMonth | frontend/src/pages/MyAppointments.jsx:26-30 | a month numeral outside 1..12 or not a number shows as "undefined" |
| DateLabels.SlotDateFormatNoSeparator | frontend/src/pages/MyAppointments.jsx:26-30 | a key without underscores shows its text and two "undefined" parts |
| SlotGenerator.GetAvailableSlots | frontend/src/pages/Appointment.jsx:54-92 | seven lists, list `i` being the free half-hour slots of day `i` from its first candidate to before 21:00 |
| SlotGenerator.DaySlotsStep | frontend/src/pages/Appointment.jsx:73-90 | one turn of the while loop: the candidate's slot is kept exactly when its label is not booked |
| SlotGenerator.CandidatesShape | frontend/src/pages/Appointment.jsx:73-90 | the candidates are `t`, `t + 30`, … up to the last one before 21:00 |
| SlotGenerator.FutureDayCandidates | frontend/src/pages/Appointment.jsx:67-69 | a day other than today has the 22 candidates 10:00 to 20:30 |
| SlotGenerator.TodayStartOnTheGrid | frontend/src/pages/Appointment.jsx:64-66 | today starts at ten o'clock or later, on the hour or the half hour |
| SlotGenerator.DaySlotsMembers | frontend/src/pages/Appointment.jsx:79-87 | a slot of the day belongs exactly to a candidate whose label is not booked |
| SlotGenerator.DaySlotsAscending | frontend/src/pages/Appointment.jsx:73-90 | the times of a day's slots strictly increase |
| SlotGenerator.DaySlotsFrom | frontend/src/pages/Appointment.jsx:73-90 | no slot of a day comes before its first candidate |
| SlotGenerator.NothingLateToday | frontend/src/pages/Appointment.jsx:64-66 | from 20:00 on, today offers nothing |
| SlotGenerator.BookingRemovesSlot | frontend/src/pages/Appointment.jsx:79 | booking one label and regenerating removes exactly that slot from the day |
| SlotGenerator.BookingKeepsOtherDays | frontend/src/pages/Appointment.jsx:79 | a booking on one day leaves every other day's schedule as it was |
| SlotGenerator.BookRequest | frontend/src/pages/Appointment.jsx:95-108 | a visitor without a token is sent to log in, a missing time gets a warning; a request is sent exactly with a token, a time and a non-empty selected day, for that day's label |
| SlotGenerator.PostedDayIsSelectedDay | frontend/src/pages/Appointment.jsx:104-108 | on a generated schedule the posted day label is that of the selected tab |
| SlotGenerator.TodayStartInThePast | frontend/src/pages/Appointment.jsx:64-66 | from 10:01 to 10:59 today's first slot is already over, and the schedule offers that past slot whenever its label is not booked |
| SlotGenerator.TodayStartFixedNotPast | frontend/src/pages/Appointment.jsx:64-66 | with the hour test from ten o'clock on, every slot offered today lies after the present minute |
| SupportHours.WorkingHours | frontend/src/pages/Contact.jsx:229-237 | a working day opens before it closes |
| SupportHours.FirstWorkingAfter | frontend/src/pages/Contact.jsx:251-265 | the day found is a weekday number |
| SupportHours.CheckSupportAvailability | frontend/src/pages/Contact.jsx:221-286 | the loop's banner is the open/closed status, the closing time or the next opening the schedule gives |
| SupportHours.OpenExactlyInHours | frontend/src/pages/Contact.jsx:242-248 | open exactly Monday to Friday 9:00 to before 18:00 and Saturday 10:00 to before 16:00 |
| SupportHours.OpenNamesClosingTime | frontend/src/pages/Contact.jsx:242-248 | while open the banner names the day's closing time |
| SupportHours.FirstWorkingAfterIsFirst | frontend/src/pages/Contact.jsx:251-265 | the search ends on a working day and every day it passes over is closed |
| SupportHours.NextOpenIsWorkingDay | frontend/src/pages/Contact.jsx:251-265 | the next opening is a working day; it is today exactly before today's hours, otherwise one or two days ahead past closed days |
| SupportHours.WeekendNextOpensMonday | frontend/src/pages/Contact.jsx:251-276 | Saturday after closing and all Sunday, support opens next on Monday at 9:00 |
| SupportHours.ClosedMessageNamesTheDay | frontend/src/pages/Contact.jsx:267-284 | the closed banner says today, tomorrow or the day's name exactly as the next opening falls |
| AppointmentViews.PatientControlsShown | frontend/src/pages/MyAppointments.jsx:180-190 | each badge and button of a patient's card appears exactly under its own condition |
| AppointmentViews.PatientStatusIsUnique | frontend/src/pages/MyAppointments.jsx:180-190 | a card shows exactly one status control, then at most the Cancel button |
| AppointmentViews.CompletedShowsOnlyBadge | frontend/src/pages/MyAppointments.jsx:180-190 | a completed appointment shows only its Completed badge |
| AppointmentViews.MyAppointmentsList | frontend/src/pages/MyAppointments.jsx:63 | the list keeps every appointment and shows the newest on top |
| AppointmentViews.StaffStatusPrecedence | admin/src/pages/Admin/AllAppointments.jsx:119-125 | staff pages show Cancelled before Completed and offer buttons only when neither flag is set; admin and doctor pages differ only in the buttons |
| AppointmentViews.PagesDisagreeAfterCancelThenComplete | admin/src/pages/Doctor/DoctorAppointments.jsx:89-98 | after a doctor cancels and then completes an appointment, the patient sees Completed while the staff see Cancelled |
| AppointmentViews.AmountText | admin/src/pages/Admin/AllAppointments.jsx:109 | the fee cell starts with the currency sign |
| AppointmentViews.AmountTextReadsBack | admin/src/pages/Admin/AllAppointments.jsx:109 | NaN shows as the currency sign and "N/A"; a non-negative amount shows as digits that read back as the amount |
| AppointmentViews.PaymentLabelTells | admin/src/pages/Admin/AllAppointments.jsx:110 | "Online" exactly for paid appointments, so the badge tells paid from unpaid |
| AppointmentViews.Latest5 | admin/src/pages/Admin/Dashboard.jsx:120 | at most five entries, a prefix of the list |
| AppointmentViews.LatestAreNewest | admin/src/pages/Doctor/DoctorDashboard.jsx:128 | entry `i` of the doctor dashboard's list is the doctor's `i`-th appointment from the end |
| AppointmentViews.GreetingByHour | admin/src/pages/Doctor/DoctorDashboard.jsx:93-98 | morning before 12, afternoon from 12 to before 18, evening from 18 |
| AppointmentViews.Confirm | admin/src/pages/Doctor/DoctorDashboard.jsx:54-71 | nothing without an appointment; otherwise the cancel call exactly for 'cancel' and the complete call exactly for 'complete', on the dialog's appointment |
| AppointmentViews.ConfirmedCancelShows | admin/src/pages/Doctor/DoctorDashboard.jsx:54-71 | a confirmed cancel of one's own appointment shows it as cancelled; a dialog without an appointment changes nothing |
| AppointmentViews.AdminConfirmCancel | admin/src/pages/Admin/Dashboard.jsx:56-60 | a cancel call exactly when an appointment is selected, and it cancels that appointment |
| DoctorFilters.OfSpeciality | frontend/src/pages/Doctors.jsx:20-25 | the filtered list is no longer than the list; its members are given by `DoctorFilters.OfSpecialityMembers` and its order by `DoctorFilters.OfSpecialityIsSubsequence` |
| DoctorFilters.OfSpecialityMembers | frontend/src/pages/Doctors.jsx:20-25 | a doctor is listed exactly when it is in the store with that speciality |
| DoctorFilters.OfSpecialityIsSubsequence | frontend/src/pages/Doctors.jsx:20-25 | the filter keeps the store's order |
| DoctorFilters.DoctorsShownExactly | frontend/src/pages/Doctors.jsx:20-25 | with a speciality, exactly its doctors in store order; without one, every doctor |
| DoctorFilters.DoctorsGrid | frontend/src/pages/Doctors.jsx:74-97 | the grid shows the doctors listed |
| DoctorFilters.NoDoctorsFoundExactly | frontend/src/pages/Doctors.jsx:95-97 | "no doctors found" appears exactly when no doctor has the speciality asked for |
| DoctorFilters.Related | frontend/src/components/RelatedDoctors.jsx:11 | the related list is no longer than the list; its members are given by `DoctorFilters.RelatedMembers` |
| DoctorFilters.RelatedIsSpecialityPageWithoutSelf | frontend/src/components/RelatedDoctors.jsx:9-14 | the related doctors are the doctors page for the speciality without the doctor viewed |
| DoctorFilters.RelatedMembers | frontend/src/components/RelatedDoctors.jsx:11 | a doctor is related exactly when it has the speciality and is not the doctor viewed, in store order |
| DoctorFilters.SelfNeverRelated | frontend/src/components/RelatedDoctors.jsx:11 | the doctor viewed never appears among its related doctors |
| DoctorFilters.RelatedState | frontend/src/components/RelatedDoctors.jsx:9-14 | the list is recomputed exactly once doctors are loaded and a speciality is known, otherwise kept |
| DoctorFilters.RelatedSection | frontend/src/components/RelatedDoctors.jsx:16-18 | the section is empty exactly for an empty list |
| ResetForms.SiteSubmit | frontend/src/pages/ResetPassword.jsx:21-60 | a request exactly for matching passwords of 8 UTF-16 units or more, carrying that password and token, to the doctor endpoint exactly for a doctor's link |
| ResetForms.PanelSubmit | admin/src/pages/ResetPassword.jsx:25-57 | the panel's request always goes to the doctor endpoint |
| ResetForms.ChecksInOrder | admin/src/pages/ResetPassword.jsx:28-34 | a mismatch is reported whatever the length, the length only for matching passwords; the panel behaves as the site for a doctor's link |
| ResetForms.PostedPasswordPassesLengthCheck | frontend/src/pages/ResetPassword.jsx:24-37 | a request the form sends never fails the server's length check, and succeeds exactly when a live reset token of the right kind exists |
| ResetForms.PageFor | frontend/src/pages/ResetPassword.jsx:64-79 | the form is shown exactly for a non-empty token |
| ResetForms.PressSubmit | frontend/src/pages/ResetPassword.jsx:99-137 | a press does nothing exactly while the button is disabled, is stopped by the browser exactly when the button is enabled and a `required` field is empty, and reaches handleSubmit only with two equal, non-empty passwords |
| ResetForms.SubmittedNeverMismatched | admin/src/pages/ResetPassword.jsx:96-134 | a press that reaches handleSubmit is never refused as a mismatch: it is sent exactly when the password has 8 UTF-16 units or more, and refused as too short otherwise |
| ResetForms.LoadingDisables | admin/src/pages/ResetPassword.jsx:134 | a pending request disables the button; otherwise it is enabled exactly when a field is empty or the two agree |

## Left out

- The HTTP layer, Express routing, middleware and MongoDB are not modelled. The database is one value, and each request runs alone, so concurrent requests and their interleavings are left out.
- bcrypt and JWT are ideal: a hash is a digest that only the same password matches, and a session token names its account. Salt, signing keys and expiry of sessions are left out.
- Random tokens, new ids and `Date.now()` are parameters, as is whether the verification mail was sent. Mail content and the mail service are left out.
- The Razorpay SDK is left out. `PaymentRazorpay` returns the order the SDK would be asked for, and `VerifyRazorpay` takes the order status the SDK reports.
- The other endpoints of the controllers are not part of this model: profile updates, listing doctors, the forgot-password request and the admin controller. The admin pages' cancel calls the admin controller, so `AppointmentViews.AdminConfirmCancel` states only which call is made.
- React state, effects, toasts, redirects and the pages' polling interval are left out; each page is modelled by what it computes from the data it holds.
- Slot labels come from `toLocaleTimeString`, which depends on the locale; they are the parameter `render`. Calendar days, with `setDate` rolling over month ends, are the parameter `dates`. Seconds and milliseconds are left out.
- JsText.Lower: lower-cases only A to Z. JavaScript's `toLowerCase` also maps other capitals, so for the label "14:ÖÖ" the page shows "2:öö PM" where the model gives "2:ÖÖ PM". The labels `toLocaleTimeString` produces in Latin-script locales hold only digits, colons, spaces and the am/pm marks, and no character lower-cases to a, m or p, so the am/pm test is the same in both. JsText.LowerChar has the same limit.
- JsText.ParseInt: does not model leading white space or the hexadecimal prefix, which the labels the application builds never contain.
- JsText.ToNumber: reads as NaN the forms `Number` accepts besides signed digits: hexadecimal, octal and binary prefixes ("0x3"), decimals, exponents, `Infinity` and surrounding white space. For such a month numeral the model shows "undefined" where the page would show a month; the labels the application builds never contain them.
- Amounts are integers; the floating-point arithmetic of JavaScript numbers is left out.
- SupportHours.CheckSupportAvailability: the source reads the weekday a second time for the "tomorrow" test; the model uses the same weekday for both reads, so a call that straddles midnight is not modelled.
- SlotGenerator.GetAvailableSlots models today's start as written, including the minute test: from 9:31 to 9:59 the first slot is 10:30 and the free 10:00 slot is never offered, and after ten o'clock a time past the half hour skips the next full hour too. Only the offered past slot is recorded under Findings.
- The `userData` and `docData` copies embedded in an appointment at booking time are not modelled beyond the fee.
- Backend.PatientCancelGuarded has no contract of its own; its property is `BookingInvariant.GuardedCancelKeepsInvariant`.

## Findings

| source | as written | input that shows it | evidently intended | confidence | as-written member | corrected member |
|---|---|---|---|---|---|---|
| backend/controllers/userController.js:313-343 | an owner may cancel an appointment that is already cancelled, and the second cancel again filters its time label out of the doctor's day | one doctor at 10:00 on one day: a books and cancels, b books 10:00, a cancels that appointment again (releasing b's label), c books 10:00; b and c are then both active at the same time | a cancelled appointment is left alone (refused or skipped), so only the appointment holding the label releases it | not executed | BookingInvariant.RepeatedCancelDoubleBooks | BookingInvariant.RunGuardedKeepsInvariant |
| frontend/src/pages/Appointment.jsx:64-66 | today's first slot uses the next hour only when the hour is greater than 10, so at 10:xx it starts at 10:00 or 10:30 | at 10:45, today's first slot is 10:30, which is already over | the next hour is taken from ten o'clock on (`>= 10`), so no slot lies in the past | not executed | SlotGenerator.TodayStartInThePast | SlotGenerator.TodayStartFixedNotPast |
