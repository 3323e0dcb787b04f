/** The closed set of commands the parser produces and the executor consumes. */
module Commands {

  /** `usize` on a 64-bit target. */
  const USIZE_MAX: nat := 0xFFFF_FFFF_FFFF_FFFF

  type Usize = n: nat | n <= USIZE_MAX

  datatype Command =
    | FetchAppointments
    | AttendAppointment(number: Usize)
    | RegisterSection(section: string, details: string)
    | Prescribe(medication: string)
    | Request(exam: string)
    | Referral(specialty: string)
    | CommitEncounter
    | Unknown(text: string)
}
