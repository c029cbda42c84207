/** doctorDashboard: the doctor's appointments folded into the panel's
    figures — earnings over the appointments that are completed or paid, the
    number of distinct patients, the number of appointments and the list in
    reverse order. */
module Dashboard {
  import opened SlotLedger
  import opened Backend

  /** The doctor's appointments, in store order. */
  function AppointmentsOf(s: seq<Appointment>, docId: string): (r: seq<Appointment>)
    ensures |r| <= |s|
  {
    if s == [] then []
    else AppointmentsOf(s[..|s| - 1], docId) + (if s[|s| - 1].docId == docId then [s[|s| - 1]] else [])
  }

  /** An appointment is listed exactly when it is in the store and is the doctor's. */
  lemma {:induction false} AppointmentsOfMembers(s: seq<Appointment>, docId: string, a: Appointment)
    ensures a in AppointmentsOf(s, docId) <==> a in s && a.docId == docId
  {
    if s != [] {
      AppointmentsOfMembers(s[..|s| - 1], docId, a);
      assert s == s[..|s| - 1] + [s[|s| - 1]];
    }
  }

  /** What one appointment adds to the earnings. */
  function Credit(a: Appointment): int {
    if a.isCompleted || a.payment then a.amount else 0
  }

  /** The sum of `amount` over the appointments that are completed or paid. */
  function Earnings(s: seq<Appointment>): int {
    if s == [] then 0 else Earnings(s[..|s| - 1]) + Credit(s[|s| - 1])
  }

  lemma EarningsSnoc(s: seq<Appointment>, a: Appointment)
    ensures Earnings(s + [a]) == Earnings(s) + Credit(a)
  {
    assert (s + [a])[..|s|] == s;
  }

  /** The doctor's earnings grow by the credit of each appointment of theirs. */
  lemma EarningsStep(s: seq<Appointment>, docId: string)
    requires s != []
    ensures var x := s[|s| - 1];
            Earnings(AppointmentsOf(s, docId))
            == Earnings(AppointmentsOf(s[..|s| - 1], docId)) + (if x.docId == docId then Credit(x) else 0)
  {
    var x := s[|s| - 1];
    var p := AppointmentsOf(s[..|s| - 1], docId);
    if x.docId == docId {
      EarningsSnoc(p, x);
    } else {
      assert AppointmentsOf(s, docId) == p + [];
      assert p + [] == p;
    }
  }

  /** The distinct patients of a list of appointments. */
  function PatientsOf(s: seq<Appointment>): set<string> {
    set a | a in s :: a.userId
  }

  lemma PatientsOfSnoc(s: seq<Appointment>, a: Appointment)
    ensures PatientsOf(s + [a]) == PatientsOf(s) + {a.userId}
  {
    assert forall b :: b in s + [a] <==> b in s || b == a;
  }

  /** The list in reverse order, the last entry first. */
  function Reversed<T>(s: seq<T>): (r: seq<T>)
    ensures |r| == |s|
    ensures forall i :: 0 <= i < |s| ==> r[i] == s[|s| - 1 - i]
  {
    if s == [] then [] else [s[|s| - 1]] + Reversed(s[..|s| - 1])
  }

  /** Reversing twice gives the list back. */
  lemma ReversedTwice<T>(s: seq<T>)
    ensures Reversed(Reversed(s)) == s
  {
  }

  datatype DashData = DashData(earnings: int, appointments: nat, patients: nat,
                               latestAppointments: seq<Appointment>)

  /** A list without repeats has as many elements as its set. */
  lemma {:induction false} DistinctCount(s: seq<string>)
    requires NoRepeats(s)
    ensures |set x | x in s| == |s|
  {
    if s != [] {
      var init := s[..|s| - 1];
      assert NoRepeats(init) by {
        forall i, j | 0 <= i < j < |init| ensures init[i] != init[j] {
          assert init[i] == s[i] && init[j] == s[j];
        }
      }
      DistinctCount(init);
      assert s[|s| - 1] !in init by {
        forall i | 0 <= i < |init| ensures init[i] != s[|s| - 1] { assert init[i] == s[i]; }
      }
      assert s == init + [s[|s| - 1]];
      assert (set x | x in s) == (set x | x in init) + {s[|s| - 1]};
    }
  }

  /** doctorDashboard: two passes over the doctor's appointments, one adding up
      earnings and one collecting each patient once. */
  method DoctorDashboard(db: Db, docId: string) returns (dash: DashData)
    ensures var list := AppointmentsOf(db.appointments, docId);
            dash.earnings == Earnings(list)
            && dash.appointments == |list|
            && dash.patients == |PatientsOf(list)|
            && dash.patients <= dash.appointments
            && dash.latestAppointments == Reversed(list)
  {
    var appointments := AppointmentsOf(db.appointments, docId);
    var earnings := 0;
    for i := 0 to |appointments|
      invariant earnings == Earnings(appointments[..i])
    {
      var item := appointments[i];
      if item.isCompleted || item.payment {
        earnings := earnings + item.amount;
      }
      assert appointments[..i + 1] == appointments[..i] + [item];
      EarningsSnoc(appointments[..i], item);
    }
    assert appointments[..|appointments|] == appointments;
    var patients: seq<string> := [];
    for i := 0 to |appointments|
      invariant NoRepeats(patients) && |patients| <= i
      invariant (set p | p in patients) == PatientsOf(appointments[..i])
    {
      assert appointments[..i + 1] == appointments[..i] + [appointments[i]];
      PatientsOfSnoc(appointments[..i], appointments[i]);
      if appointments[i].userId !in patients {
        patients := patients + [appointments[i].userId];
      }
    }
    DistinctCount(patients);
    dash := DashData(earnings, |appointments|, |patients|, Reversed(appointments));
  }

  /** Replacing one appointment changes the earnings of its doctor by the
      difference of the two credits. */
  lemma {:induction false} EarningsOfUpdate(s: seq<Appointment>, j: nat, v: Appointment, docId: string)
    requires j < |s| && v.docId == s[j].docId == docId
    ensures Earnings(AppointmentsOf(s[j := v], docId))
            == Earnings(AppointmentsOf(s, docId)) - Credit(s[j]) + Credit(v)
  {
    var n := |s| - 1;
    EarningsStep(s, docId);
    EarningsStep(s[j := v], docId);
    if j == n {
      assert s[j := v][..n] == s[..n];
    } else {
      assert s[j := v][..n] == s[..n][j := v];
      EarningsOfUpdate(s[..n], j, v, docId);
    }
  }

  /** A new appointment is neither paid nor completed: booking leaves every
      doctor's earnings as they were. */
  lemma BookKeepsEarnings(db: Db, userId: string, docId: string, slotDate: string, slotTime: string,
                          now: int, viewer: string)
    ensures Earnings(AppointmentsOf(Book(db, userId, docId, slotDate, slotTime, now).db.appointments, viewer))
            == Earnings(AppointmentsOf(db.appointments, viewer))
  {
    var s1 := Book(db, userId, docId, slotDate, slotTime, now).db.appointments;
    if s1 != db.appointments {
      assert s1[..|s1| - 1] == db.appointments;
      EarningsStep(s1, viewer);
    }
  }

  /** A confirmed payment for an appointment that was neither paid nor
      completed adds its amount to its doctor's earnings; once paid, completing
      it adds nothing more. */
  lemma PaymentThenCompleteEarnings(db: Db, receipt: nat, docId: string)
    requires receipt < |db.appointments| && db.appointments[receipt].docId == docId
    requires !db.appointments[receipt].payment && !db.appointments[receipt].isCompleted
    ensures var db1 := VerifyRazorpay(db, "paid", receipt).db;
            var db2 := DoctorComplete(db1, docId, receipt).db;
            Earnings(AppointmentsOf(db1.appointments, docId))
              == Earnings(AppointmentsOf(db.appointments, docId)) + db.appointments[receipt].amount
            && Earnings(AppointmentsOf(db2.appointments, docId)) == Earnings(AppointmentsOf(db1.appointments, docId))
  {
    var a := db.appointments[receipt];
    var db1 := VerifyRazorpay(db, "paid", receipt).db;
    assert db1.appointments == db.appointments[receipt := a.(payment := true)];
    EarningsOfUpdate(db.appointments, receipt, a.(payment := true), docId);
    var db2 := DoctorComplete(db1, docId, receipt).db;
    assert db2.appointments == db1.appointments[receipt := db1.appointments[receipt].(isCompleted := true)];
    EarningsOfUpdate(db1.appointments, receipt, db1.appointments[receipt].(isCompleted := true), docId);
  }
}
