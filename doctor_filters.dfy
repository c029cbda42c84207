/** The doctor lists of the patient site: the doctors page filtered by the
    speciality in the address, and the related doctors under a doctor's
    booking page (same speciality, the doctor itself left out). */
module DoctorFilters {

  /** What the lists read of a doctor. */
  datatype DoctorCard = DoctorCard(id: string, name: string, speciality: string, available: bool)

  /** `s` keeps the elements of `t` it holds, in the same order. */
  predicate IsSubsequence<T(==)>(s: seq<T>, t: seq<T>)
    decreases |t|
  {
    if s == [] then true
    else if t == [] then false
    else (s[0] == t[0] && IsSubsequence(s[1..], t[1..])) || IsSubsequence(s, t[1..])
  }

  /** The doctors whose speciality is the one chosen, in store order. */
  function OfSpeciality(doctors: seq<DoctorCard>, speciality: string): (r: seq<DoctorCard>)
    ensures |r| <= |doctors|
  {
    if doctors == [] then []
    else (if doctors[0].speciality == speciality then [doctors[0]] else []) + OfSpeciality(doctors[1..], speciality)
  }

  /** The doctors page: the speciality's doctors when the address names one
      (the empty string is falsy), otherwise every doctor. */
  function DoctorsShown(doctors: seq<DoctorCard>, speciality: string): seq<DoctorCard> {
    if speciality != "" then OfSpeciality(doctors, speciality) else doctors
  }

  lemma {:induction false} OfSpecialityMembers(doctors: seq<DoctorCard>, speciality: string, d: DoctorCard)
    ensures d in OfSpeciality(doctors, speciality) <==> d in doctors && d.speciality == speciality
  {
    if doctors != [] {
      OfSpecialityMembers(doctors[1..], speciality, d);
      assert doctors == [doctors[0]] + doctors[1..];
    }
  }

  lemma {:induction false} OfSpecialityIsSubsequence(doctors: seq<DoctorCard>, speciality: string)
    ensures IsSubsequence(OfSpeciality(doctors, speciality), doctors)
  {
    if doctors != [] {
      OfSpecialityIsSubsequence(doctors[1..], speciality);
      var rest := OfSpeciality(doctors[1..], speciality);
      if doctors[0].speciality == speciality {
        assert OfSpeciality(doctors, speciality) == [doctors[0]] + rest;
        assert ([doctors[0]] + rest)[1..] == rest;
      } else {
        assert OfSpeciality(doctors, speciality) == rest;
        SubsequenceOfTail(rest, doctors);
      }
    }
  }

  /** A subsequence of the tail is a subsequence of the whole. */
  lemma {:induction false} SubsequenceOfTail<T>(s: seq<T>, t: seq<T>)
    requires t != [] && IsSubsequence(s, t[1..])
    ensures IsSubsequence(s, t)
  {
  }

  /** The doctors page, with a speciality: exactly that speciality's doctors, in
      the store's order; without one: every doctor. */
  lemma DoctorsShownExactly(doctors: seq<DoctorCard>, speciality: string, d: DoctorCard)
    ensures speciality != "" ==> (d in DoctorsShown(doctors, speciality) <==> d in doctors && d.speciality == speciality)
    ensures speciality == "" ==> DoctorsShown(doctors, speciality) == doctors
    ensures IsSubsequence(DoctorsShown(doctors, speciality), doctors)
    ensures |DoctorsShown(doctors, speciality)| <= |doctors|
  {
    OfSpecialityMembers(doctors, speciality, d);
    OfSpecialityIsSubsequence(doctors, speciality);
    if speciality == "" {
      SubsequenceOfItself(doctors);
    }
  }

  lemma {:induction false} SubsequenceOfItself<T>(s: seq<T>)
    ensures IsSubsequence(s, s)
  {
    if s != [] {
      SubsequenceOfItself(s[1..]);
    }
  }

  /** The grid of the doctors page. */
  datatype Grid = Cards(cards: seq<DoctorCard>) | NoDoctorsFound

  function DoctorsGrid(shown: seq<DoctorCard>): (g: Grid)
    ensures g.Cards? ==> g.cards == shown
  {
    if |shown| > 0 then Cards(shown) else NoDoctorsFound
  }

  /** The "no doctors found" message appears exactly when no doctor has the
      speciality asked for. */
  lemma NoDoctorsFoundExactly(doctors: seq<DoctorCard>, speciality: string)
    requires speciality != ""
    ensures DoctorsGrid(DoctorsShown(doctors, speciality)) == NoDoctorsFound
            <==> forall d :: d in doctors ==> d.speciality != speciality
  {
    var shown := DoctorsShown(doctors, speciality);
    forall d | d in doctors
      ensures d in shown <==> d.speciality == speciality
    {
      OfSpecialityMembers(doctors, speciality, d);
    }
    if |shown| > 0 {
      OfSpecialityMembers(doctors, speciality, shown[0]);
    }
  }

  // ---------------------------------------------------------- related doctors

  /** The other doctors of the same speciality as the one viewed, in store order. */
  function Related(doctors: seq<DoctorCard>, speciality: string, docId: string): (r: seq<DoctorCard>)
    ensures |r| <= |doctors|
  {
    if doctors == [] then []
    else (if doctors[0].speciality == speciality && doctors[0].id != docId then [doctors[0]] else [])
         + Related(doctors[1..], speciality, docId)
  }

  /** Every doctor other than `docId`, in order. */
  function Except(doctors: seq<DoctorCard>, docId: string): seq<DoctorCard> {
    if doctors == [] then []
    else (if doctors[0].id != docId then [doctors[0]] else []) + Except(doctors[1..], docId)
  }

  /** The related doctors are the doctors page for the same speciality without
      the doctor being viewed. */
  lemma {:induction false} RelatedIsSpecialityPageWithoutSelf(doctors: seq<DoctorCard>, speciality: string, docId: string)
    requires speciality != ""
    ensures Related(doctors, speciality, docId) == Except(DoctorsShown(doctors, speciality), docId)
  {
    if doctors != [] {
      RelatedIsSpecialityPageWithoutSelf(doctors[1..], speciality, docId);
      var rest := OfSpeciality(doctors[1..], speciality);
      if doctors[0].speciality == speciality {
        assert ([doctors[0]] + rest)[1..] == rest;
      } else {
        assert OfSpeciality(doctors, speciality) == rest;
      }
    }
  }

  /** A related doctor has the speciality and is not the doctor being viewed;
      every such doctor is related; the list keeps the store's order. */
  lemma {:induction false} RelatedMembers(doctors: seq<DoctorCard>, speciality: string, docId: string, d: DoctorCard)
    ensures d in Related(doctors, speciality, docId)
            <==> d in doctors && d.speciality == speciality && d.id != docId
    ensures IsSubsequence(Related(doctors, speciality, docId), doctors)
  {
    if doctors != [] {
      RelatedMembers(doctors[1..], speciality, docId, d);
      assert doctors == [doctors[0]] + doctors[1..];
      var rest := Related(doctors[1..], speciality, docId);
      if doctors[0].speciality == speciality && doctors[0].id != docId {
        assert ([doctors[0]] + rest)[1..] == rest;
      } else {
        assert Related(doctors, speciality, docId) == rest;
        SubsequenceOfTail(rest, doctors);
      }
    }
  }

  /** The doctor being viewed never appears among its related doctors. */
  lemma SelfNeverRelated(doctors: seq<DoctorCard>, speciality: string, docId: string)
    ensures forall d :: d in Related(doctors, speciality, docId) ==> d.id != docId
  {
    forall d | d in Related(doctors, speciality, docId) ensures d.id != docId {
      RelatedMembers(doctors, speciality, docId, d);
    }
  }

  /** The effect's update: the list is recomputed only once doctors are
      loaded and a speciality is known; otherwise the previous list stays. */
  function RelatedState(previous: seq<DoctorCard>, doctors: seq<DoctorCard>, speciality: string, docId: string)
    : (r: seq<DoctorCard>)
    ensures |doctors| == 0 || speciality == "" ==> r == previous
    ensures |doctors| > 0 && speciality != "" ==> r == Related(doctors, speciality, docId)
  {
    if |doctors| > 0 && speciality != "" then Related(doctors, speciality, docId) else previous
  }

  /** The related section renders nothing for an empty list. */
  function RelatedSection(relDoc: seq<DoctorCard>): (r: Grid)
    ensures r == NoDoctorsFound <==> relDoc == []
  {
    if |relDoc| == 0 then NoDoctorsFound else Cards(relDoc)
  }
}
