/** The command executor: one session object owns the roster and the
    encounter manager, and each command becomes a state change plus the
    line of text shown to the user. */
module Executor {
  import opened Wrappers
  import opened Text
  import opened Commands
  import opened Appointments
  import Parser
  import Fhir

  /** One line of the appointment listing, numbered from 1. */
  function ListingLine(position: nat, a: Appointment): (line: string)
    ensures StartsWith(line, NatToDecimal(position) + ". Patient: ") && line[|line| - 1] == '\n'
  {
    NatToDecimal(position) + ". Patient: " + a.patientName + ", Time: " + a.time
      + ", Reason: " + a.reason + "\n"
  }

  /** The lines of the listing: line `i` is the `i`-th appointment,
      numbered `i + 1`. */
  function Lines(appointments: seq<Appointment>): (r: seq<string>)
    ensures |r| == |appointments|
    ensures forall i :: 0 <= i < |appointments| ==> r[i] == ListingLine(i + 1, appointments[i])
  {
    seq(|appointments|, i requires 0 <= i < |appointments| => ListingLine(i + 1, appointments[i]))
  }

  /** The lines written one after another. */
  function Concat(lines: seq<string>): string
  {
    if lines == [] then "" else Concat(lines[..|lines| - 1]) + lines[|lines| - 1]
  }

  /** The fetch listing of `appointments`. */
  function Listing(appointments: seq<Appointment>): string
  {
    Concat(Lines(appointments))
  }

  /** The fetch loop: appends one numbered line per appointment. */
  method FormatAppointments(appointments: seq<Appointment>) returns (result: string)
    ensures result == Concat(Lines(appointments))
  {
    result := "";
    var i := 0;
    while i < |appointments|
      invariant 0 <= i <= |appointments|
      invariant result == Concat(Lines(appointments[..i]))
    {
      ghost var lines := Lines(appointments[..i + 1]);
      assert lines[..i] == Lines(appointments[..i]);
      result := result + ListingLine(i + 1, appointments[i]);
      i := i + 1;
    }
    assert appointments[..i] == appointments;
  }

  /** The reply to a valid attend: the patient and the new encounter's status. */
  function StartedMessage(patientName: string): string
  {
    "Started encounter for " + patientName + "\nStatus: " + IN_PROGRESS
      + "\nEncounter sections initialized."
  }

  /** The tag of a logged action. */
  function ActionTag(c: Command): string
    requires c.Prescribe? || c.Request? || c.Referral?
  {
    if c.Prescribe? then "Prescription: " else if c.Request? then "Exam Request: " else "Referral: "
  }

  /** The text the action command carries. */
  function ActionPayload(c: Command): string
    requires c.Prescribe? || c.Request? || c.Referral?
  {
    if c.Prescribe? then c.medication else if c.Request? then c.exam else c.specialty
  }

  /** The tagged text an action command logs. */
  function ActionEntry(c: Command): string
    requires c.Prescribe? || c.Request? || c.Referral?
  {
    ActionTag(c) + ActionPayload(c)
  }

  /** The message an action command reports on success. */
  function ActionReply(c: Command): string
    requires c.Prescribe? || c.Request? || c.Referral?
  {
    match c
    case Prescribe(medication) => "Prescribed: \"" + medication + "\""
    case Request(exam) => "Requested: \"" + exam + "\""
    case Referral(specialty) => "Referred to: \"" + specialty + "\""
  }

  /** `execute`, as a function of the roster and the manager's state. */
  function ExecuteStep(roster: AppointmentManager, s: ManagerState, c: Command, sink: SinkOutcome): (ManagerState, string)
  {
    match c
    case FetchAppointments => (s, Listing(roster.appointments))
    case AttendAppointment(number) =>
      (match roster.GetAppointment(number)
       case Some(a) => (StartStep(s, a.id, a.patientName, a.reason), StartedMessage(a.patientName))
       case None => (s, "Error: Invalid appointment number " + NatToDecimal(number)))
    case RegisterSection(section, details) =>
      var (t, r) := AddSectionStep(s, section, details);
      (t, if r.Ok? then "Added to " + section + " section: \"" + details + "\"" else "Error: " + r.error)
    case Prescribe(_) =>
      var (t, r) := AddActionStep(s, ActionEntry(c));
      (t, if r.Ok? then ActionReply(c) else "Error: " + r.error)
    case Request(_) =>
      var (t, r) := AddActionStep(s, ActionEntry(c));
      (t, if r.Ok? then ActionReply(c) else "Error: " + r.error)
    case Referral(_) =>
      var (t, r) := AddActionStep(s, ActionEntry(c));
      (t, if r.Ok? then ActionReply(c) else "Error: " + r.error)
    case CommitEncounter =>
      var (t, r) := CommitStep(s, sink);
      (t, if r.Ok? then "Encounter committed successfully and saved to " + r.value else "Error: " + r.error)
    case Unknown(text) => (s, "Unknown command: \"" + text + "\"")
  }

  /** The session: the roster and the encounter manager that the Rust executor
      keeps in process-wide singletons, here fields of one object. */
  class Session {
    const roster: AppointmentManager
    const encounters: EncounterManager

    constructor ()
      ensures roster == AppointmentManager.New()
      ensures fresh(encounters) && encounters.State() == ManagerState(None, 0)
    {
      roster := AppointmentManager.New();
      encounters := new EncounterManager();
    }

    /** Runs one command; `now` is the clock reading and `sink` what writing
        the record out comes to, should the command be a commit. */
    method Execute(c: Command, now: string, sink: SinkOutcome) returns (output: string)
      modifies encounters, encounters.current
      ensures (encounters.State(), output) == ExecuteStep(roster, old(encounters.State()), c, sink)
    {
      match c {
        case FetchAppointments =>
          output := FormatAppointments(roster.appointments);
        case AttendAppointment(number) =>
          match roster.GetAppointment(number) {
            case Some(a) =>
              var e := encounters.StartEncounter(a.id, a.patientName, a.reason);
              output := StartedMessage(e.patientName);
            case None =>
              output := "Error: Invalid appointment number " + NatToDecimal(number);
          }
        case RegisterSection(section, details) =>
          var r := encounters.AddSection(section, details);
          output := if r.Ok? then "Added to " + section + " section: \"" + details + "\"" else "Error: " + r.error;
        case Prescribe(_) =>
          var r := encounters.AddAction(ActionEntry(c));
          output := if r.Ok? then ActionReply(c) else "Error: " + r.error;
        case Request(_) =>
          var r := encounters.AddAction(ActionEntry(c));
          output := if r.Ok? then ActionReply(c) else "Error: " + r.error;
        case Referral(_) =>
          var r := encounters.AddAction(ActionEntry(c));
          output := if r.Ok? then ActionReply(c) else "Error: " + r.error;
        case CommitEncounter =>
          var r, _ := encounters.CommitEncounter(now, sink);
          output := if r.Ok? then "Encounter committed successfully and saved to " + r.value else "Error: " + r.error;
        case Unknown(text) =>
          output := "Unknown command: \"" + text + "\"";
      }
    }
  }

  // ---------------------------------------------------------------------
  // Properties of the executor

  /** Listing the roster, an unknown command and an invalid appointment
      number change nothing. */
  lemma QueriesChangeNothing(roster: AppointmentManager, s: ManagerState, c: Command, sink: SinkOutcome)
    requires c.FetchAppointments? || c.Unknown?
             || (c.AttendAppointment? && roster.GetAppointment(c.number).None?)
    ensures ExecuteStep(roster, s, c, sink).0 == s
    ensures c.Unknown? ==> ExecuteStep(roster, s, c, sink).1 == "Unknown command: \"" + c.text + "\""
    ensures c.AttendAppointment? ==>
      ExecuteStep(roster, s, c, sink).1 == "Error: Invalid appointment number " + NatToDecimal(c.number)
  {
  }

  /** The fetch reply is the roster's lines, one per entry in roster order,
      numbered from 1, and nothing changes. */
  lemma FetchLists(roster: AppointmentManager, s: ManagerState, sink: SinkOutcome)
    ensures ExecuteStep(roster, s, FetchAppointments, sink) == (s, Concat(Lines(roster.appointments)))
  {
  }

  /** A valid number opens a fresh encounter for that appointment. */
  lemma AttendOpens(roster: AppointmentManager, s: ManagerState, n: Usize, sink: SinkOutcome)
    requires 1 <= n <= |roster.appointments|
    ensures var a := roster.appointments[n - 1];
      ExecuteStep(roster, s, AttendAppointment(n), sink)
        == (s.(current := Some(NewRecord(a.id, a.patientName, a.reason))), StartedMessage(a.patientName))
  {
  }

  /** With no open encounter, sections, actions and commits are refused
      with the manager's error and nothing changes. */
  lemma IdleCommandsRefused(roster: AppointmentManager, s: ManagerState, c: Command, sink: SinkOutcome)
    requires s.current.None?
    requires c.RegisterSection? || c.Prescribe? || c.Request? || c.Referral? || c.CommitEncounter?
    ensures ExecuteStep(roster, s, c, sink)
         == (s, "Error: " + if c.CommitEncounter? then NO_ACTIVE_ENCOUNTER_TO_COMMIT else NO_ACTIVE_ENCOUNTER)
  {
  }

  /** With an encounter open, a section is upserted unchanged and an action
      is appended with its tag. */
  lemma OpenCommandsApplied(roster: AppointmentManager, s: ManagerState, c: Command, sink: SinkOutcome)
    requires s.current.Some?
    requires c.RegisterSection? || c.Prescribe? || c.Request? || c.Referral?
    ensures var e := s.current.value;
      ExecuteStep(roster, s, c, sink).0
        == s.(current := Some(if c.RegisterSection? then e.AddSection(c.section, c.details) else e.AddAction(ActionEntry(c))))
    ensures ExecuteStep(roster, s, c, sink).1
         == if c.RegisterSection? then "Added to " + c.section + " section: \"" + c.details + "\"" else ActionReply(c)
  {
  }

  lemma ActionEntryParts(c: Command)
    requires c.Prescribe? || c.Request? || c.Referral?
    ensures ActionEntry(c) == ActionTag(c) + ActionPayload(c)
    ensures |ActionEntry(c)| > 0
    ensures ActionEntry(c)[0] == if c.Prescribe? then 'P' else if c.Request? then 'E' else 'R'
  {
  }

  /** The log entry identifies the command: different action commands
      never log the same text. */
  lemma ActionEntryIdentifiesCommand(c1: Command, c2: Command)
    requires c1.Prescribe? || c1.Request? || c1.Referral?
    requires c2.Prescribe? || c2.Request? || c2.Referral?
    requires ActionEntry(c1) == ActionEntry(c2)
    ensures c1 == c2
  {
    ActionEntryParts(c1);
    ActionEntryParts(c2);
    assert ActionTag(c1) == ActionTag(c2);
    var n := |ActionTag(c1)|;
    assert ActionPayload(c1) == ActionEntry(c1)[n..];
    assert ActionPayload(c2) == ActionEntry(c2)[n..];
  }

  /** A commit reports the file it wrote, or the error it met. */
  lemma CommitReply(roster: AppointmentManager, s: ManagerState, sink: SinkOutcome)
    requires s.current.Some?
    ensures var out := ExecuteStep(roster, s, CommitEncounter, sink).1;
      if sink.Written?
      then out == "Encounter committed successfully and saved to " + FileName(s.encounterCount + 1)
      else out == "Error: " + CommitStep(s, sink).1.error
    ensures ExecuteStep(roster, s, CommitEncounter, sink).0 == CommitStep(s, sink).0
  {
  }

  /** The first and the last appointment can be attended; 0 and one past
      the end cannot. */
  lemma RosterBoundaries()
    ensures var m := AppointmentManager.New();
      m.GetAppointment(1).Some? && m.GetAppointment(10).Some?
      && m.GetAppointment(0).None? && m.GetAppointment(11).None?
  {
  }

  /** A visit up to its commit: attend the first appointment, register a
      complaint and prescribe, all from typed lines. */
  lemma VisitScenario(s: ManagerState)
    ensures
      var roster := AppointmentManager.New();
      var (s1, o1) := ExecuteStep(roster, s, Parser.Parse("attend appointment 1"), Written);
      var s2 := ExecuteStep(roster, s1, Parser.Parse("register complaint \"fatigue\""), Written).0;
      var s3 := ExecuteStep(roster, s2, Parser.Parse("prescribe \"vitamin D\""), Written).0;
      && o1 == StartedMessage("Jane Doe")
      && s3 == s.(current := Some(VisitRecord()))
  {
    VisitAttend(s);
    VisitRegister(s);
    VisitPrescribe(s);
  }

  /** The visit's commit closes the encounter under the next file name, and
      a second commit finds nothing to commit. */
  lemma VisitCommitTwice(s3: ManagerState)
    requires s3.current == Some(VisitRecord())
    ensures
      var roster := AppointmentManager.New();
      var (s4, o4) := ExecuteStep(roster, s3, Parser.Parse("commit encounter"), Written);
      var (s5, o5) := ExecuteStep(roster, s4, Parser.Parse("commit encounter"), Written);
      && s4 == ManagerState(None, s3.encounterCount + 1)
      && o4 == "Encounter committed successfully and saved to " + FileName(s3.encounterCount + 1)
      && (s5, o5) == (s4, "Error: " + NO_ACTIVE_ENCOUNTER_TO_COMMIT)
  {
    VisitCommit(s3);
    Parser.ExampleCommit();
    IdleCommandsRefused(AppointmentManager.New(), ManagerState(None, s3.encounterCount + 1), CommitEncounter, Written);
  }

  /** The encounter the visit has built just before the commit. */
  function VisitRecord(): EncounterRecord
  {
    EncounterRecord(1, "Jane Doe", "Annual checkup", map["complaint" := "fatigue"],
                    ["Prescription: vitamin D"], IN_PROGRESS)
  }

  lemma VisitAttend(s: ManagerState)
    ensures ExecuteStep(AppointmentManager.New(), s, Parser.Parse("attend appointment 1"), Written)
         == (s.(current := Some(NewRecord(1, "Jane Doe", "Annual checkup"))), StartedMessage("Jane Doe"))
  {
    Parser.ExampleAttendOne();
    AttendOpens(AppointmentManager.New(), s, 1, Written);
  }

  lemma VisitRegister(s: ManagerState)
    ensures ExecuteStep(AppointmentManager.New(), s.(current := Some(NewRecord(1, "Jane Doe", "Annual checkup"))),
                        Parser.Parse("register complaint \"fatigue\""), Written).0
         == s.(current := Some(NewRecord(1, "Jane Doe", "Annual checkup").AddSection("complaint", "fatigue")))
  {
    Parser.ExampleRegisterFatigue();
    OpenCommandsApplied(AppointmentManager.New(), s.(current := Some(NewRecord(1, "Jane Doe", "Annual checkup"))),
                        RegisterSection("complaint", "fatigue"), Written);
  }

  lemma VisitPrescribe(s: ManagerState)
    ensures ExecuteStep(AppointmentManager.New(),
                        s.(current := Some(NewRecord(1, "Jane Doe", "Annual checkup").AddSection("complaint", "fatigue"))),
                        Parser.Parse("prescribe \"vitamin D\""), Written).0
         == s.(current := Some(VisitRecord()))
  {
    var e := NewRecord(1, "Jane Doe", "Annual checkup").AddSection("complaint", "fatigue");
    Parser.ExamplePrescribeVitaminD();
    OpenCommandsApplied(AppointmentManager.New(), s.(current := Some(e)), Prescribe("vitamin D"), Written);
    PrescriptionEntry();
    assert e.AddAction("Prescription: vitamin D") == VisitRecord();
  }

  lemma VisitCommit(s3: ManagerState)
    requires s3.current == Some(VisitRecord())
    ensures ExecuteStep(AppointmentManager.New(), s3, Parser.Parse("commit encounter"), Written)
         == (ManagerState(None, s3.encounterCount + 1),
             "Encounter committed successfully and saved to " + FileName(s3.encounterCount + 1))
  {
    Parser.ExampleCommit();
    CommitReply(AppointmentManager.New(), s3, Written);
    CommitOutcome(s3, Written);
  }

  /** The record the visit's commit exports: the complaint is the reason,
      there is no diagnosis, and the notes are the complaint and the
      prescription. */
  lemma VisitExport(s3: ManagerState, now: string, doc: Fhir.Encounter)
    requires s3.current == Some(VisitRecord())
    requires IsCommitExport(doc, s3, now)
    ensures doc.status == "finished" && doc.diagnosis == []
    ensures doc.reasonCode[0].coding[0].code == "chief-complaint" && doc.reasonCode[0].text == "fatigue"
    ensures Fhir.Texts(doc.note) == ["complaint: fatigue", "Prescription: vitamin D"]
  {
    var sections := VisitRecord().sections;
    assert Fhir.COMPLAINT_KEY in sections;
    assert Fhir.DIAGNOSIS_KEY !in sections;
    VisitSectionNotes();
    assert |sections| == 1;
    var first := Fhir.Texts(doc.note[..1]);
    assert multiset(first) == multiset{"complaint: fatigue"};
    assert first[0] in multiset(first);
    assert first == ["complaint: fatigue"];
    Fhir.TextsSplit(doc.note, 1);
  }

  lemma VisitSectionNotes()
    ensures Fhir.SectionNotes(map["complaint" := "fatigue"]) == multiset{"complaint: fatigue"}
  {
    var m := map["complaint" := "fatigue"];
    Fhir.NotesOverRemove(m, m.Keys, "complaint");
    assert m.Keys - {"complaint"} == {};
    assert Fhir.SectionNote("complaint", "fatigue") == "complaint: fatigue";
  }

  lemma PrescriptionEntry()
    ensures ActionEntry(Prescribe("vitamin D")) == "Prescription: vitamin D"
  {
  }
}
