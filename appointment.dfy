/** The appointment roster, the encounter being documented, and the manager
    that holds at most one open encounter and commits it to a record. */
module Appointments {
  import opened Wrappers
  import opened Text
  import opened Commands
  import Fhir

  // ---------------------------------------------------------------------
  // Roster

  datatype Appointment = Appointment(id: Usize, patientName: string, time: string, reason: string)

  /** Entry `i` has id `i + 1`, so looking an id up is indexing. */
  predicate DenseIds(appointments: seq<Appointment>)
  {
    forall i :: 0 <= i < |appointments| ==> appointments[i].id == i + 1
  }

  /** The roster never changes, so it is a value. */
  datatype AppointmentManager = AppointmentManager(appointments: seq<Appointment>)
  {
    /** The built-in list of the day's ten appointments. */
    static function New(): (m: AppointmentManager)
      ensures |m.appointments| == 10 && DenseIds(m.appointments)
    {
      AppointmentManager([
        Appointment(1, "Jane Doe", "09:00", "Annual checkup"),
        Appointment(2, "John Smith", "09:30", "Follow-up after surgery"),
        Appointment(3, "Mary Johnson", "10:15", "Chronic headache"),
        Appointment(4, "Robert Brown", "11:00", "Diabetes management"),
        Appointment(5, "Patricia Davis", "11:45", "Skin rash"),
        Appointment(6, "Michael Wilson", "13:30", "Hypertension follow-up"),
        Appointment(7, "Elizabeth Martinez", "14:15", "Pregnancy checkup"),
        Appointment(8, "James Anderson", "15:00", "Lower back pain"),
        Appointment(9, "Jennifer Thomas", "15:45", "Anxiety management"),
        Appointment(10, "Charles Jackson", "16:30", "Prescription renewal")
      ])
    }

    /** 1-based, bounds-checked lookup. */
    function GetAppointment(id: Usize): (r: Option<Appointment>)
      ensures r.Some? <==> 1 <= id <= |appointments|
      ensures r.Some? ==> r.value == appointments[id - 1]
    {
      if 1 <= id <= |appointments| then Some(appointments[id - 1]) else None
    }
  }

  /** On a roster with dense ids, the lookup finds the appointment with that
      id, and exactly the ids 1 to the roster's length are found. */
  lemma LookupFindsId(m: AppointmentManager, id: Usize)
    requires DenseIds(m.appointments)
    ensures m.GetAppointment(id).Some? ==> m.GetAppointment(id).value.id == id
    ensures m.GetAppointment(id).None? <==> id == 0 || id > |m.appointments|
  {
  }

  // ---------------------------------------------------------------------
  // Encounter

  const IN_PROGRESS := "in-progress"
  const COMPLETED := "completed"

  /** The value of an encounter's fields. */
  datatype EncounterRecord = EncounterRecord(
    appointmentId: Usize,
    patientName: string,
    reason: string,
    sections: map<string, string>,
    actions: seq<string>,
    status: string)
  {
    /** Upsert: the section now holds the details, every other section is
        as it was, and nothing else changes. */
    function AddSection(section: string, details: string): (r: EncounterRecord)
      ensures section in r.sections && r.sections[section] == details
      ensures r.sections.Keys == sections.Keys + {section}
      ensures forall k :: k in sections && k != section ==> r.sections[k] == sections[k]
      ensures r.(sections := sections) == this
    {
      this.(sections := sections[section := details])
    }

    /** Append: the action goes last, the earlier ones stay as they were. */
    function AddAction(action: string): (r: EncounterRecord)
      ensures |r.actions| == |actions| + 1 && r.actions[|actions|] == action
      ensures r.actions[..|actions|] == actions
      ensures r.(actions := actions) == this
    {
      this.(actions := actions + [action])
    }

    /** Marks the encounter completed and changes nothing else. */
    function Complete(): (r: EncounterRecord)
      ensures r.status == COMPLETED && r.(status := status) == this
    {
      this.(status := COMPLETED)
    }
  }

  /** A fresh encounter: no sections, no actions, in progress. */
  function NewRecord(appointmentId: Usize, patientName: string, reason: string): EncounterRecord
  {
    EncounterRecord(appointmentId, patientName, reason, map[], [], IN_PROGRESS)
  }

  class Encounter {
    var appointmentId: Usize
    var patientName: string
    var reason: string
    var sections: map<string, string>
    var actions: seq<string>
    var status: string

    function View(): EncounterRecord
      reads this
    {
      EncounterRecord(appointmentId, patientName, reason, sections, actions, status)
    }

    constructor (appointmentId: Usize, patientName: string, reason: string)
      ensures View() == NewRecord(appointmentId, patientName, reason)
    {
      this.appointmentId := appointmentId;
      this.patientName := patientName;
      this.reason := reason;
      sections := map[];
      actions := [];
      status := IN_PROGRESS;
    }

    method AddSection(section: string, details: string)
      modifies this
      ensures View() == old(View()).AddSection(section, details)
    {
      sections := sections[section := details];
    }

    method AddAction(action: string)
      modifies this
      ensures View() == old(View()).AddAction(action)
    {
      actions := actions + [action];
    }

    method Complete()
      modifies this
      ensures View() == old(View()).Complete()
    {
      status := COMPLETED;
    }
  }

  // ---------------------------------------------------------------------
  // Encounter manager: the state machine, as functions on its state

  /** The manager's state: the open encounter, if any, and the number of
      commits attempted so far. */
  datatype ManagerState = ManagerState(current: Option<EncounterRecord>, encounterCount: nat)

  const NO_ACTIVE_ENCOUNTER := "No active encounter"
  const NO_ACTIVE_ENCOUNTER_TO_COMMIT := "No active encounter to commit"

  /** What serialising the record and writing it out came to. */
  datatype SinkOutcome = Written | SerializeFailed(reason: string) | WriteFailed(reason: string)

  /** The name of the file the record of commit `count` is written to. */
  function FileName(count: nat): (name: string)
    ensures StartsWith(name, "encounter_") && |name| > 14
    ensures name[|name| - 4..] == ".med" && AllDigits(name[10..|name| - 4])
    ensures DecimalValue(name[10..|name| - 4]) == count
    ensures name[10..|name| - 4] == NatToDecimal(count)
  {
    DecimalRoundTrip(count);
    assert ("encounter_" + NatToDecimal(count) + ".med")[10..|NatToDecimal(count)| + 10] == NatToDecimal(count);
    "encounter_" + NatToDecimal(count) + ".med"
  }

  /** Starting replaces whatever was open, and leaves the counter alone. */
  function StartStep(s: ManagerState, appointmentId: Usize, patientName: string, reason: string): (r: ManagerState)
    ensures r.current.Some? && r.current.value.appointmentId == appointmentId
    ensures r.encounterCount == s.encounterCount
  {
    s.(current := Some(NewRecord(appointmentId, patientName, reason)))
  }

  function AddSectionStep(s: ManagerState, section: string, details: string): (r: (ManagerState, Result<()>))
    ensures r.1.Ok? <==> s.current.Some?
    ensures s.current.Some? ==> r.0 == s.(current := Some(s.current.value.AddSection(section, details)))
    ensures s.current.None? ==> r.0 == s
    ensures r.0.encounterCount == s.encounterCount && (r.0.current.Some? <==> s.current.Some?)
  {
    match s.current
    case None => (s, Err(NO_ACTIVE_ENCOUNTER))
    case Some(e) => (s.(current := Some(e.AddSection(section, details))), Ok(()))
  }

  function AddActionStep(s: ManagerState, action: string): (r: (ManagerState, Result<()>))
    ensures r.1.Ok? <==> s.current.Some?
    ensures s.current.Some? ==> r.0 == s.(current := Some(s.current.value.AddAction(action)))
    ensures s.current.None? ==> r.0 == s
    ensures r.0.encounterCount == s.encounterCount && (r.0.current.Some? <==> s.current.Some?)
  {
    match s.current
    case None => (s, Err(NO_ACTIVE_ENCOUNTER))
    case Some(e) => (s.(current := Some(e.AddAction(action))), Ok(()))
  }

  /** Commit: the encounter is completed and the counter advanced before
      the record is written; only a successful write closes the encounter. */
  function CommitStep(s: ManagerState, sink: SinkOutcome): (r: (ManagerState, Result<string>))
    ensures r.1.Ok? <==> s.current.Some? && sink.Written?
    ensures r.0.encounterCount == if s.current.Some? then s.encounterCount + 1 else s.encounterCount
    ensures r.0.current.None? <==> s.current.None? || sink.Written?
  {
    match s.current
    case None => (s, Err(NO_ACTIVE_ENCOUNTER_TO_COMMIT))
    case Some(e) =>
      var count := s.encounterCount + 1;
      match sink
      case Written => (ManagerState(None, count), Ok(FileName(count)))
      case SerializeFailed(why) =>
        (ManagerState(Some(e.Complete()), count), Err("Failed to serialize encounter: " + why))
      case WriteFailed(why) =>
        (ManagerState(Some(e.Complete()), count), Err("Failed to write file: " + why))
  }

  /** The record handed to the exporter by a commit of state `s`. */
  ghost predicate IsCommitExport(doc: Fhir.Encounter, s: ManagerState, now: string)
    requires s.current.Some?
  {
    var e := s.current.value;
    Fhir.IsExportOf(doc, NatToDecimal(s.encounterCount + 1), e.patientName, e.reason,
                    e.sections, e.actions, now)
  }

  class EncounterManager {
    var current: Encounter?
    var encounterCount: nat

    ghost function State(): ManagerState
      reads this, current
    {
      ManagerState(if current == null then None else Some(current.View()), encounterCount)
    }

    constructor ()
      ensures State() == ManagerState(None, 0)
    {
      current := null;
      encounterCount := 0;
    }

    method StartEncounter(appointmentId: Usize, patientName: string, reason: string)
      returns (e: Encounter)
      modifies this
      ensures fresh(e) && current == e
      ensures State() == StartStep(old(State()), appointmentId, patientName, reason)
    {
      e := new Encounter(appointmentId, patientName, reason);
      current := e;
    }

    method AddSection(section: string, details: string) returns (r: Result<()>)
      modifies current
      ensures current == old(current)
      ensures (State(), r) == AddSectionStep(old(State()), section, details)
    {
      if current == null {
        r := Err(NO_ACTIVE_ENCOUNTER);
      } else {
        current.AddSection(section, details);
        r := Ok(());
      }
    }

    method AddAction(action: string) returns (r: Result<()>)
      modifies current
      ensures current == old(current)
      ensures (State(), r) == AddActionStep(old(State()), action)
    {
      if current == null {
        r := Err(NO_ACTIVE_ENCOUNTER);
      } else {
        current.AddAction(action);
        r := Ok(());
      }
    }

    /** `exported` is the record built for the write; there is one exactly
        when an encounter was open. */
    method CommitEncounter(now: string, sink: SinkOutcome) returns (r: Result<string>, exported: Option<Fhir.Encounter>)
      modifies this, current
      ensures (State(), r) == CommitStep(old(State()), sink)
      ensures exported.Some? <==> old(current) != null
      ensures exported.Some? ==> IsCommitExport(exported.value, old(State()), now)
      ensures r.Err? ==> current == old(current)
    {
      if current == null {
        r := Err(NO_ACTIVE_ENCOUNTER_TO_COMMIT);
        exported := None;
        return;
      }
      current.Complete();
      encounterCount := encounterCount + 1;
      var filename := FileName(encounterCount);
      var doc := Fhir.CreateEncounter(NatToDecimal(encounterCount), current.patientName,
                                      current.reason, current.sections, current.actions, now);
      exported := Some(doc);
      match sink {
        case Written =>
          current := null;
          r := Ok(filename);
        case SerializeFailed(why) =>
          r := Err("Failed to serialize encounter: " + why);
        case WriteFailed(why) =>
          r := Err("Failed to write file: " + why);
      }
    }
  }

  // ---------------------------------------------------------------------
  // Properties of the state machine

  /** With no open encounter every mutator fails and nothing changes. */
  lemma IdleRejectsEverything(s: ManagerState, section: string, details: string, action: string, sink: SinkOutcome)
    requires s.current.None?
    ensures AddSectionStep(s, section, details) == (s, Err(NO_ACTIVE_ENCOUNTER))
    ensures AddActionStep(s, action) == (s, Err(NO_ACTIVE_ENCOUNTER))
    ensures CommitStep(s, sink) == (s, Err(NO_ACTIVE_ENCOUNTER_TO_COMMIT))
  {
  }

  /** Starting always leaves a fresh encounter for the given appointment,
      whatever was open before. */
  lemma StartReplaces(s: ManagerState, appointmentId: Usize, patientName: string, reason: string)
    ensures var t := StartStep(s, appointmentId, patientName, reason);
      && t.encounterCount == s.encounterCount
      && t.current.Some?
      && t.current.value.appointmentId == appointmentId
      && t.current.value.patientName == patientName
      && t.current.value.reason == reason
      && t.current.value.sections == map[]
      && t.current.value.actions == []
      && t.current.value.status == IN_PROGRESS
  {
  }

  /** A commit of an open encounter always advances the counter and completes
      the encounter; it succeeds, with the counter's file name, exactly when
      the write did, and only success closes the encounter. */
  lemma CommitOutcome(s: ManagerState, sink: SinkOutcome)
    requires s.current.Some?
    ensures var (t, r) := CommitStep(s, sink);
      && t.encounterCount == s.encounterCount + 1
      && (r.Ok? <==> sink.Written?)
      && (r.Ok? ==> r.value == FileName(t.encounterCount) && t.current.None?)
      && (r.Err? ==> t.current == Some(s.current.value.Complete()))
  {
  }

  /** The counter never goes down, whatever the step. */
  lemma CounterMonotone(s: ManagerState, section: string, details: string, action: string, sink: SinkOutcome,
                        appointmentId: Usize, patientName: string, reason: string)
    ensures AddSectionStep(s, section, details).0.encounterCount == s.encounterCount
    ensures AddActionStep(s, action).0.encounterCount == s.encounterCount
    ensures StartStep(s, appointmentId, patientName, reason).encounterCount == s.encounterCount
    ensures CommitStep(s, sink).0.encounterCount >= s.encounterCount
  {
  }

  /** Different commits are written to different files. */
  lemma FileNamesDistinct(m: nat, n: nat)
    requires m != n
    ensures FileName(m) != FileName(n)
  {
  }

  /** Registering the same section twice keeps only the latter details. */
  lemma SectionOverwrite(e: EncounterRecord, section: string, first: string, second: string)
    ensures e.AddSection(section, first).AddSection(section, second) == e.AddSection(section, second)
  {
  }

  /** The actions of an encounter are the ones logged, in the order logged. */
  lemma ActionsInOrder(e: EncounterRecord, a: string, b: string)
    ensures e.AddAction(a).AddAction(b).actions == e.actions + [a, b]
  {
  }
}
