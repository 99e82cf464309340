/** The doctor list (src/features/doctors/components/doctor-table.tsx): a
    "Verified" / "All" switch in front of the table, the counts on its two buttons,
    the per-row Verify action and the empty-state message. */
module DoctorTable {
  import opened DoctorTypes

  datatype FilterMode = VerifiedOnly | All

  /** The list opens on the verified doctors. */
  const InitialFilterMode: FilterMode := VerifiedOnly

  const NoVerifiedDoctors: string := "No verified doctors found."
  const NoDoctors: string := "No doctors found."

  /** `doctors.filter((d) => d.verify)`. */
  function VerifiedDoctors(doctors: seq<Doctor>): (r: seq<Doctor>)
    ensures |r| <= |doctors|
    ensures forall d :: d in r <==> d in doctors && d.verify
    ensures |r| == |doctors| <==> forall i :: 0 <= i < |doctors| ==> doctors[i].verify
    ensures r == [] <==> forall i :: 0 <= i < |doctors| ==> !doctors[i].verify
  {
    if doctors == [] then []
    else
      var rest := VerifiedDoctors(doctors[1..]);
      assert forall i :: 1 <= i < |doctors| ==> doctors[i] == doctors[1..][i - 1];
      assert forall d :: d in doctors <==> d == doctors[0] || d in doctors[1..];
      if doctors[0].verify then [doctors[0]] + rest else rest
  }

  /** Filtering keeps the original order: it distributes over concatenation. */
  lemma {:induction false} VerifiedDoctorsAppend(a: seq<Doctor>, b: seq<Doctor>)
    ensures VerifiedDoctors(a + b) == VerifiedDoctors(a) + VerifiedDoctors(b)
  {
    if a == [] {
      assert a + b == b;
    } else {
      assert (a + b)[0] == a[0] && (a + b)[1..] == a[1..] + b;
      VerifiedDoctorsAppend(a[1..], b);
    }
  }

  /** The rows handed to the table before searching, sorting and paging. */
  function FilteredDoctors(doctors: seq<Doctor>, mode: FilterMode): (r: seq<Doctor>)
    ensures mode == All ==> r == doctors
    ensures mode == VerifiedOnly ==> r == VerifiedDoctors(doctors)
  {
    if mode == VerifiedOnly then VerifiedDoctors(doctors) else doctors
  }

  /** The number of verified doctors, counted from the end of the list. */
  function CountVerified(doctors: seq<Doctor>): nat {
    if doctors == [] then 0
    else CountVerified(doctors[..|doctors| - 1]) + (if doctors[|doctors| - 1].verify then 1 else 0)
  }

  /** Counting distributes over concatenation. */
  lemma {:induction false} CountVerifiedAppend(a: seq<Doctor>, b: seq<Doctor>)
    ensures CountVerified(a + b) == CountVerified(a) + CountVerified(b)
    decreases |b|
  {
    if b == [] {
      assert a + b == a;
    } else {
      var init := b[..|b| - 1];
      assert (a + b)[..|a + b| - 1] == a + init;
      assert (a + b)[|a + b| - 1] == b[|b| - 1];
      CountVerifiedAppend(a, init);
    }
  }

  /** The count on the "Verified" button, `doctors.filter((d) => d.verify).length`:
      the number of verified doctors, which is also the number of rows the
      "Verified" view shows. */
  function VerifiedCount(doctors: seq<Doctor>): (n: nat)
    ensures n == CountVerified(doctors)
    ensures n == |FilteredDoctors(doctors, VerifiedOnly)|
  {
    VerifiedLengthIsCount(doctors);
    |VerifiedDoctors(doctors)|
  }

  lemma {:induction false} VerifiedLengthIsCount(doctors: seq<Doctor>)
    ensures |VerifiedDoctors(doctors)| == CountVerified(doctors)
    decreases |doctors|
  {
    if doctors != [] {
      var init := doctors[..|doctors| - 1];
      var last := doctors[|doctors| - 1];
      assert doctors == init + [last];
      VerifiedDoctorsAppend(init, [last]);
      assert VerifiedDoctors([last]) == (if last.verify then [last] else []) by {
        assert [last][1..] == [];
      }
      VerifiedLengthIsCount(init);
    }
  }

  /** The "All" button counts `doctors.length`, the rows of the "All" view. The
      "Verified" count never exceeds it, and equals it exactly when every doctor
      is verified. */
  lemma CountsAgree(doctors: seq<Doctor>)
    ensures |FilteredDoctors(doctors, All)| == |doctors|
    ensures VerifiedCount(doctors) <= |doctors|
    ensures VerifiedCount(doctors) == |doctors| <==>
      forall i :: 0 <= i < |doctors| ==> doctors[i].verify
  {
  }

  /** The Verify action is offered on a row whose doctor is not yet verified. */
  predicate ShowsVerifyAction(d: Doctor) {
    !d.verify
  }

  /** In the verified view no row offers the Verify action; in the full view the
      rows that offer it are exactly the unverified doctors. */
  lemma VerifyActionOnlyForUnverified(doctors: seq<Doctor>)
    ensures forall d :: d in FilteredDoctors(doctors, VerifiedOnly) ==> !ShowsVerifyAction(d)
    ensures forall d :: d in FilteredDoctors(doctors, All) && ShowsVerifyAction(d) <==>
      d in doctors && !d.verify
  {
  }

  /** The message in an empty table. */
  function EmptyMessage(mode: FilterMode): (m: string)
    ensures m == NoVerifiedDoctors <==> mode == VerifiedOnly
    ensures m in {NoVerifiedDoctors, NoDoctors}
  {
    match mode
    case VerifiedOnly => NoVerifiedDoctors
    case All => NoDoctors
  }
}
