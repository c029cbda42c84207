/** The doctor's `slots_booked` ledger: a map from a date label to the time
    labels booked on that day. Booking adds a label to the day's list (creating
    the list when the day has none), cancelling filters the label out. */
module SlotLedger {
  import opened Wrappers

  type Slots = map<string, seq<string>>

  /** The labels booked on `date`; a missing key books nothing. */
  function Booked(slots: Slots, date: string): seq<string> {
    if date in slots then slots[date] else []
  }

  /** The list with every copy of `x` dropped and the rest kept in order. */
  function Without(list: seq<string>, x: string): (r: seq<string>)
    ensures |r| <= |list|
  {
    if list == [] then []
    else (if list[0] == x then [] else [list[0]]) + Without(list[1..], x)
  }

  /** The filter drops every copy of `x` and keeps every other label as often
      as it was there. */
  lemma {:induction false} WithoutCounts(list: seq<string>, x: string)
    ensures multiset(Without(list, x)) == multiset(list)[x := 0]
  {
    if list != [] {
      WithoutCounts(list[1..], x);
      assert list == [list[0]] + list[1..];
      assert multiset(list) == multiset([list[0]]) + multiset(list[1..]);
    }
  }

  lemma WithoutRemoves(list: seq<string>, x: string)
    ensures x !in Without(list, x)
    ensures forall y :: y != x ==> (y in Without(list, x) <==> y in list)
  {
    WithoutCounts(list, x);
    assert x !in multiset(Without(list, x));
  }

  /** A list without `x` is left as it is. */
  lemma {:induction false} WithoutAbsent(list: seq<string>, x: string)
    requires x !in list
    ensures Without(list, x) == list
  {
    if list != [] {
      assert x !in list[1..];
      WithoutAbsent(list[1..], x);
      assert [list[0]] + list[1..] == list;
    }
  }

  /** bookAppointment on the ledger: None ('Slot Not Available') when the label
      is already in the day's list, otherwise the label is pushed onto the list,
      which is created empty when the day has no key yet. */
  function Reserve(slots: Slots, date: string, time: string): (r: Option<Slots>)
    ensures r.None? <==> date in slots && time in slots[date]
  {
    if date in slots then
      if time in slots[date] then None
      else Some(slots[date := slots[date] + [time]])
    else
      Some(slots[date := [] + [time]])
  }

  /** cancelAppointment on the ledger: the day's list is replaced by its
      filtered copy; a day with no key makes the filter throw (None). */
  function Release(slots: Slots, date: string, time: string): (r: Option<Slots>)
    ensures r.None? <==> date !in slots
  {
    if date in slots then Some(slots[date := Without(slots[date], time)]) else None
  }

  /** A successful reservation appends the label to the day's booked list and
      changes no other day. */
  lemma ReserveEffect(slots: Slots, date: string, time: string)
    requires Reserve(slots, date, time).Some?
    ensures var s := Reserve(slots, date, time).value;
            s.Keys == slots.Keys + {date}
            && s[date] == Booked(slots, date) + [time]
            && (forall d :: d in slots && d != date ==> s[d] == slots[d])
  {
  }

  /** A release filters the day's list and changes no other day. */
  lemma ReleaseEffect(slots: Slots, date: string, time: string)
    requires date in slots
    ensures var s := Release(slots, date, time).value;
            s.Keys == slots.Keys
            && multiset(s[date]) == multiset(slots[date])[time := 0]
            && (forall d :: d in slots && d != date ==> s[d] == slots[d])
  {
    WithoutCounts(slots[date], time);
  }

  /** Booking a label and releasing it gives the day back the list it had
      (an empty list when the day had no key). */
  lemma ReserveThenRelease(slots: Slots, date: string, time: string)
    requires Reserve(slots, date, time).Some?
    ensures Release(Reserve(slots, date, time).value, date, time)
            == Some(slots[date := Booked(slots, date)])
  {
    var before := Booked(slots, date);
    assert time !in before;
    var s1 := Reserve(slots, date, time).value;
    assert s1 == slots[date := before + [time]];
    WithoutAppend(before, time);
    WithoutAbsent(before, time);
    assert Release(s1, date, time).value == s1[date := before];
    assert s1[date := before] == slots[date := before];
  }

  lemma {:induction false} WithoutAppend(list: seq<string>, x: string)
    ensures Without(list + [x], x) == Without(list, x)
  {
    if list == [] {
      assert [] + [x] == [x];
      assert [x][1..] == [];
    } else {
      WithoutAppend(list[1..], x);
      assert (list + [x])[1..] == list[1..] + [x];
    }
  }

  /** Releasing twice is releasing once. */
  lemma ReleaseIdempotent(slots: Slots, date: string, time: string)
    requires date in slots
    ensures Release(Release(slots, date, time).value, date, time) == Release(slots, date, time)
  {
    var w := Without(slots[date], time);
    WithoutRemoves(slots[date], time);
    WithoutAbsent(w, time);
    var s1 := Release(slots, date, time).value;
    assert s1 == slots[date := w];
    assert Release(s1, date, time).value == s1[date := w];
    assert s1[date := w] == s1;
  }

  /** No label occurs twice in a list. */
  predicate NoRepeats(list: seq<string>) {
    forall i, j :: 0 <= i < j < |list| ==> list[i] != list[j]
  }

  /** No day lists a time label twice. */
  predicate Distinct(slots: Slots) {
    forall d :: d in slots ==> NoRepeats(slots[d])
  }

  lemma ReservePreservesDistinct(slots: Slots, date: string, time: string)
    requires Distinct(slots) && Reserve(slots, date, time).Some?
    ensures Distinct(Reserve(slots, date, time).value)
  {
    var s := Reserve(slots, date, time).value;
    var l := Booked(slots, date);
    assert time !in l;
    assert s[date] == l + [time];
    forall i, j | 0 <= i < j < |s[date]| ensures s[date][i] != s[date][j] {
      if j == |l| {
        assert s[date][i] == l[i];
      } else {
        assert s[date][i] == l[i] && s[date][j] == l[j];
      }
    }
  }

  lemma {:induction false} WithoutKeepsNoRepeats(list: seq<string>, x: string)
    requires NoRepeats(list)
    ensures NoRepeats(Without(list, x))
  {
    if list != [] {
      var tail := list[1..];
      assert NoRepeats(tail) by {
        forall i, j | 0 <= i < j < |tail| ensures tail[i] != tail[j] {
          assert tail[i] == list[i + 1] && tail[j] == list[j + 1];
        }
      }
      WithoutKeepsNoRepeats(tail, x);
      WithoutCounts(tail, x);
      if list[0] != x {
        var w := Without(tail, x);
        assert list[0] !in tail by {
          forall j | 0 <= j < |tail| ensures tail[j] != list[0] {
            assert tail[j] == list[j + 1];
          }
        }
        assert list[0] !in multiset(w);
        var r := [list[0]] + w;
        forall i, j | 0 <= i < j < |r| ensures r[i] != r[j] {
          if i == 0 {
            assert r[j] == w[j - 1];
            assert w[j - 1] in multiset(w);
          } else {
            assert r[i] == w[i - 1] && r[j] == w[j - 1];
          }
        }
      }
    }
  }

  lemma ReleasePreservesDistinct(slots: Slots, date: string, time: string)
    requires Distinct(slots) && date in slots
    ensures Distinct(Release(slots, date, time).value)
  {
    WithoutKeepsNoRepeats(slots[date], time);
  }
}
