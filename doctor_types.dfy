/** The records of the doctor directory and of the registry lookup. */
module DoctorTypes {
  import opened Common

  datatype DayOfWeek = MON | TUE | WED | THU | FRI | SAT | SUN

  /** The seven days in the order the working-hours editor lists and searches them. */
  const DaysOfWeek: seq<DayOfWeek> := [MON, TUE, WED, THU, FRI, SAT, SUN]

  datatype ConsultationType = InPerson | Telemedicine | Both

  datatype WorkingHour = WorkingHour(day: DayOfWeek, start: string, end: string)

  /** A doctor as the backend returns it; `verify` and `isActive` are independent flags. */
  datatype Doctor = Doctor(
    id: string,
    fullName: string,
    licenseId: string,
    contactNumber: string,
    email: Option<string>,
    specialty: Option<string>,
    clinicName: Option<string>,
    yearsOfExperience: Option<int>,
    workingHours: Option<seq<WorkingHour>>,
    appointmentDuration: Option<int>,
    consultationType: Option<ConsultationType>,
    profileImageUrl: Option<string>,
    verify: bool,
    isActive: bool,
    createdAt: string,
    updatedAt: Option<string>)

  /** The practitioner record the verification endpoint hands to the browser.
      `qualifications` is absent when the registry entry had none. */
  datatype SlmcPractitioner = SlmcPractitioner(
    regNo: string,
    regDate: string,
    lastName: string,
    otherNames: string,
    fullName: string,
    qualifications: Option<string>)

  datatype SlmcVerificationStatus = Idle | Loading | Valid | Invalid
}
