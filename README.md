# Charcot DSL, modelled in Dafny

Charcot DSL is a small command language for a clinician's working session.
The user types lines such as `fetch appointments`, `attend appointment 3`,
`register complaint "headache"`, `prescribe "ibuprofen"` and `commit encounter`.

- The parser turns each line into one of eight commands.
- The executor runs the command against a fixed roster of ten appointments and an encounter manager. The manager holds at most one open encounter: its sections, its log of clinical actions and its status.
- Committing an encounter exports it as a record shaped after the HL7 FHIR R4 Encounter resource and writes it to `encounter_<n>.med`.
- A completer and a hinter over two constant tables help with typing commands.

The project has one module per source file:

| module | file | models |
|---|---|---|
| `Wrappers` | wrappers.dfy | `Option` and `Result` |
| `Text` | text.dfy | string helpers: `trim` with the Unicode White_Space set, decimal digits, ASCII lowercase, `trim_start_matches` |
| `Commands` | command.dfy | the `Command` enum, with `usize` as a bounded subset of `nat` |
| `Parser` | parser.dfy | `parse` |
| `Fhir` | fhir.dfy | the record datatypes and `create_encounter` |
| `Appointments` | appointment.dfy | the roster, the `Encounter` and `EncounterManager` classes, and their pure step functions |
| `Executor` | executor.dfy | `execute`, as a `Session` class proved against the pure `ExecuteStep` |
| `Autocomplete` | autocomplete.dfy | `complete` and `hint` |

How the source's form carries over:

- **Classes.** `Encounter` and `EncounterManager` update their fields in place, so they are classes. Each method's `ensures` ties the new state to a pure step function of the old state (`EncounterRecord.AddSection`, `AddSectionStep`, `CommitStep`, …), and the lemmas are about those functions.
- **Notes loops.** The two `for` loops of the export are loops in methods. The first walks the section map in an order that is not specified; a `:|` choice stands for the `HashMap` iteration order. Its result is therefore stated as a multiset.
- **Serialise and write.** What serialising and writing the record come to is a parameter, `SinkOutcome`.
- **Clock.** The clock reading is a parameter, `now`.
- **Failed commit.** When serialising or writing fails, the code keeps the completed encounter in the slot (src/appointment.rs:193-201), and the model follows it (`Appointments.CommitOutcome`).

## Model

| member | source | states |
|---|---|---|
| Text.TrimStart | src/parser.rs:5 | no contract of its own; `TrimStartSpec` proves it drops only leading White_Space and keeps a suffix that does not begin with White_Space |
| Text.TrimEnd | src/parser.rs:5 | no contract of its own; `TrimEndSpec` proves it drops only trailing White_Space and keeps a prefix that does not end with White_Space |
| Text.Trim | src/parser.rs:5 | no contract of its own; `TrimSpec` proves the result is a slice `s[i..j]` of the input with only White_Space outside it and none at either end of it, and `TrimIdempotent` that trimming twice is trimming once |
| Text.TrimStartSpec | src/parser.rs:5 | the start-trimmed string is a suffix of the input, everything removed is White_Space, and it does not begin with White_Space |
| Text.TrimEndSpec | src/parser.rs:5 | the end-trimmed string is a prefix of the input, everything removed is White_Space, and it does not end with White_Space |
| Text.TrimSpec | src/parser.rs:5 | the trimmed line is a slice `s[i..j]` of the input, everything before `i` and from `j` on is White_Space, and the slice neither begins nor ends with White_Space |
| Text.TrimIdempotent | src/parser.rs:5 | trimming a trimmed line changes nothing |
| Text.NatToDecimal | src/appointment.rs:177 | the decimal rendering of a count is a non-empty run of ASCII digits with no leading zero (a leading '0' only for the number 0) |
| Text.DecimalRoundTrip | src/parser.rs:18 | reading back the decimal rendering of `n` gives `n` |
| Text.DecimalInjective | src/appointment.rs:177 | different numbers have different decimal renderings |
| Text.Lower | src/autocomplete.rs:48 | lowercasing keeps the length and lowers each character |
| Text.StripRepeated | src/autocomplete.rs:82 | stripping leading repeats leaves a suffix of the input that no longer starts with the pattern |
| Text.StripRepeatedCopies | src/autocomplete.rs:82 | what the stripping removes is a whole number of copies of the pattern: the input is `k` copies followed by the result |
| Parser.Parse | src/parser.rs:4-53 | an `Unknown` result carries the trimmed line; `ParseIgnoresSurroundingWhitespace`, `ParseLiterals`, `ParseAttend`, `ParseRegister`, `ParseAction` and their `Shape` lemmas characterise every other result |
| Parser.Recognise | src/parser.rs:7-52 | `FetchAppointments` and `CommitEncounter` come exactly from their literals, and an `Unknown` result carries the line it was given |
| Parser.MatchAttend | src/parser.rs:15-22 | a match needs the "attend appointment " prefix and something after it; `ParseAttend` and `ParseAttendShape` prove the digit-run and `usize` conditions |
| Parser.MatchQuoted | src/parser.rs:33-37 | a match yields non-empty, newline-free details from a line that starts with `keyword "` and ends with a quote; `MatchQuotedShape` proves the line is exactly `keyword "details"` |
| Parser.MatchRegister | src/parser.rs:25-30 | a match names one of the three sections and carries non-empty, newline-free details; `MatchRegisterShape` proves the line is rebuilt from them |
| Parser.ParseIgnoresSurroundingWhitespace | src/parser.rs:4-5 | `parse(s) == parse(trim(s))` for every `s` |
| Parser.ParseLiterals | src/parser.rs:8-12 | the result is `FetchAppointments`, or `CommitEncounter`, exactly when the trimmed line is that literal |
| Parser.ParseAttend | src/parser.rs:15-22 | "attend appointment " plus a non-empty digit run whose value fits in `usize` gives `AttendAppointment` of that value; any other rest falls through to `Unknown` of the trimmed line |
| Parser.ParseAttendNumber | src/parser.rs:15-22 | "attend appointment " plus the decimal rendering of any `usize` parses to that number |
| Parser.ParseAttendShape | src/parser.rs:15-22 | an `AttendAppointment(n)` result comes only from "attend appointment " plus digits whose value is `n` |
| Parser.MatchQuotedOf | src/parser.rs:33-37 | `keyword "details"` with non-empty, newline-free details is matched and yields the details |
| Parser.MatchQuotedShape | src/parser.rs:33-37 | a match yields non-empty, newline-free details, and the line is exactly `keyword "details"` |
| Parser.MatchRegisterOf | src/parser.rs:25-30 | `register <section> "details"` is matched for each of the three section names |
| Parser.MatchRegisterShape | src/parser.rs:25-30 | a register match names one of the three sections and reproduces the line exactly |
| Parser.ParseRegister | src/parser.rs:25-30 | a trimmed line `register <section> "details"` parses to `RegisterSection(section, details)` |
| Parser.ParseRegisterShape | src/parser.rs:25-30 | a `RegisterSection` result names one of the three sections, its details are non-empty and newline-free, and the trimmed line is rebuilt from them |
| Parser.ParseAction | src/parser.rs:33-49 | `prescribe`, `request` and `referral` with one space and a quoted payload parse to the matching action command |
| Parser.ParseActionShape | src/parser.rs:33-49 | an action result's payload is non-empty and newline-free, and the trimmed line is `keyword "payload"` |
| Parser.ParseUnknown | src/parser.rs:51-52 | an `Unknown` result carries the trimmed line |
| Parser.ExampleFetchWithSpaces | src/parser.rs:4-9 | surrounding blanks do not stop the `fetch appointments` literal |
| Parser.ExampleAttendThree | src/parser.rs:15-22 | "attend appointment 3" gives `AttendAppointment(3)` |
| Parser.ExampleAttendNotANumber | src/parser.rs:15-52 | "attend appointment abc" falls through to `Unknown` |
| Parser.ExampleRegisterComplaint | src/parser.rs:25-30 | `register complaint "headache"` gives the complaint section |
| Parser.ExamplePrescribeWithQuotes | src/parser.rs:33-37 | the payload runs to the last quote and may itself hold quotes |
| Parser.ExamplePrescribeTwoSpaces | src/parser.rs:33-52 | two spaces after the keyword fall through to `Unknown` |
| Appointments.AppointmentManager.New | src/appointment.rs:15-81 | the built-in roster has ten entries and entry `i` has id `i+1` |
| Appointments.AppointmentManager.GetAppointment | src/appointment.rs:87-93 | `Some` exactly when `1 <= id <= len`, and then the entry at position `id-1` |
| Appointments.LookupFindsId | src/appointment.rs:87-93 | on a roster with dense ids, a lookup finds the appointment with that id, and fails only for 0 or past the end |
| Appointments.EncounterRecord.AddSection | src/appointment.rs:118-120 | upsert: the section holds the new details, the other keys keep theirs, and no other field changes |
| Appointments.EncounterRecord.AddAction | src/appointment.rs:122-124 | the action is appended at the end, earlier actions are kept, and no other field changes |
| Appointments.EncounterRecord.Complete | src/appointment.rs:126-128 | the status becomes "completed" and nothing else changes |
| Appointments.Encounter.constructor | src/appointment.rs:107-116 | a new encounter has no sections, no actions and status "in-progress" |
| Appointments.Encounter.AddSection | src/appointment.rs:118-120 | the encounter's new state is the upsert of its old state |
| Appointments.Encounter.AddAction | src/appointment.rs:122-124 | the encounter's new state is its old state with the action appended |
| Appointments.Encounter.Complete | src/appointment.rs:126-128 | the encounter's new state is its old state completed |
| Appointments.EncounterManager.constructor | src/appointment.rs:138-143 | no open encounter and a zero counter |
| Appointments.EncounterManager.StartEncounter | src/appointment.rs:145-149 | a fresh encounter is put in the slot, replacing any open one |
| Appointments.EncounterManager.AddSection | src/appointment.rs:151-159 | new state and result as `AddSectionStep`: an upsert when open, `Err("No active encounter")` when idle |
| Appointments.EncounterManager.AddAction | src/appointment.rs:161-169 | new state and result as `AddActionStep`: an append when open, `Err("No active encounter")` when idle |
| Appointments.EncounterManager.CommitEncounter | src/appointment.rs:171-206 | new state and result as `CommitStep`; the record handed on is the export of the open encounter under the new count; on an error the same encounter object stays current |
| Appointments.FileName | src/appointment.rs:177 | the name is `encounter_`, then the digits of `count` in canonical decimal (`NatToDecimal`, no leading zero, value `count`), then `.med`; `FileNamesDistinct` proves different counts give different names |
| Appointments.StartStep | src/appointment.rs:145-149 | the slot holds an encounter for the given appointment and the counter is unchanged; `StartReplaces` gives the whole new encounter |
| Appointments.AddSectionStep | src/appointment.rs:151-159 | succeeds exactly when an encounter is open; then the open encounter becomes its upsert with the section and nothing else changes; when idle the state is unchanged (`IdleRejectsEverything` gives the error text) |
| Appointments.AddActionStep | src/appointment.rs:161-169 | succeeds exactly when an encounter is open; then the open encounter gets the action appended and nothing else changes; when idle the state is unchanged (`IdleRejectsEverything` gives the error text) |
| Appointments.CommitStep | src/appointment.rs:171-206 | succeeds exactly when an encounter is open and the write succeeds; the counter advances by one when an encounter is open; the slot is cleared only by a successful write |
| Appointments.IdleRejectsEverything | src/appointment.rs:151-204 | with nothing open, adding a section, adding an action and committing each fail with their message and change no state |
| Appointments.StartReplaces | src/appointment.rs:145-149 | after a start the slot holds a new encounter with the given id, name and reason, empty sections and actions, status "in-progress"; the counter is unchanged |
| Appointments.CommitOutcome | src/appointment.rs:171-202 | committing an open encounter always advances the counter by one; it succeeds exactly when the write does, returning `encounter_<count>.med` and clearing the slot; on a failure the completed encounter stays in the slot |
| Appointments.CounterMonotone | src/appointment.rs:145-206 | no manager operation lowers the counter, and only commit changes it |
| Appointments.FileNamesDistinct | src/appointment.rs:177 | different counts give different file names |
| Appointments.SectionOverwrite | src/appointment.rs:118-120 | registering a section twice keeps only the second details |
| Appointments.ActionsInOrder | src/appointment.rs:122-124 | two actions are logged in the order they were added |
| Fhir.Diagnoses | src/fhir.rs:80-90 | at most one diagnosis, present exactly when "diagnostic hypothesis" is registered, referring to `Condition/<id>` with that text and rank 1 |
| Fhir.ReasonCode | src/fhir.rs:108-126 | exactly one reason, in the reason-codes system: "chief-complaint" with the complaint text if a complaint is registered, otherwise "visit" with the visit reason |
| Fhir.NotesOverRemove | src/fhir.rs:94-98 | the section notes can be split at any key, whatever order the map is walked in |
| Fhir.NotesOverSize | src/fhir.rs:94-98 | one section note per registered section |
| Fhir.CollectSectionNotes | src/fhir.rs:93-98 | one note per section; as a multiset the notes are exactly the `"<section>: <content>"` strings |
| Fhir.BuildNotes | src/fhir.rs:93-105 | the notes number sections plus actions; the first part is the section notes as a multiset, the rest the actions in order |
| Fhir.CreateEncounter | src/fhir.rs:70-155 | the record: resource type "Encounter", the id, version "1"; status "finished"; class AMB from v3-ActCode; subject `Patient/<id>` with the patient's name; `lastUpdated`, start and end all the same instant, with an end always present; the reason, diagnosis and notes above |
| Fhir.DiagnosisOnlyFromHypothesis | src/fhir.rs:80-90 | the diagnosis depends only on the "diagnostic hypothesis" entry |
| Fhir.ReasonOnlyFromComplaint | src/fhir.rs:108-126 | the reason depends only on the "complaint" entry and the visit reason |
| Fhir.ExportUniqueUpToNoteOrder | src/fhir.rs:70-155 | two exports of the same inputs agree on every field but the note order; their notes are equal as multisets and agree on the action part |
| Fhir.UpsertReplacesNote | src/fhir.rs:94-98 | re-registering a section replaces its note and leaves the other notes alone |
| Executor.ListingLine | src/executor.rs:18-24 | a listing line starts with its position in decimal and `. Patient: ` and ends with a newline |
| Executor.Lines | src/executor.rs:17-25 | one listing line per roster entry, in roster order, line `i` numbered `i+1` and formatted `i. Patient: P, Time: T, Reason: R` plus a newline |
| Executor.FormatAppointments | src/executor.rs:13-28 | the loop's result is the roster's lines written in order |
| Executor.FetchLists | src/executor.rs:13-28 | the fetch reply is the roster's lines in order, numbered from 1, and no state changes |
| Executor.Session.constructor | src/executor.rs:6-9 | the session starts with the built-in roster and an idle manager with a zero counter |
| Executor.Session.Execute | src/executor.rs:11-98 | new manager state and reply as `ExecuteStep` |
| Executor.ExecuteStep | src/executor.rs:11-98 | no contract of its own; `QueriesChangeNothing`, `FetchLists`, `AttendOpens`, `IdleCommandsRefused`, `OpenCommandsApplied` and `CommitReply` give its state and reply for every command |
| Executor.StartedMessage | src/executor.rs:42-46 | no contract of its own; `AttendOpens` proves it is the reply to a valid attend; its status line is `IN_PROGRESS`, the status every new encounter starts with (`Encounter.constructor`) |
| Executor.ActionEntry | src/executor.rs:62-80 | no contract of its own; it is the command's tag followed by its payload, and `ActionEntryIdentifiesCommand` proves that different action commands log different text |
| Executor.ActionReply | src/executor.rs:64-82 | no contract of its own; `OpenCommandsApplied` proves it is the reply to an action with an encounter open |
| Executor.QueriesChangeNothing | src/executor.rs:13-97 | fetching, an unknown command and an invalid appointment number change no state; the last two reply `Unknown command: "<cmd>"` and `Error: Invalid appointment number <n>` |
| Executor.AttendOpens | src/executor.rs:30-47 | a valid number starts an encounter from that roster entry's id, name and reason, and reports status "in-progress" |
| Executor.IdleCommandsRefused | src/executor.rs:52-93 | with nothing open, register, the three actions and commit reply `Error: ` plus the manager's message and change nothing |
| Executor.OpenCommandsApplied | src/executor.rs:52-85 | with an encounter open, a section is upserted unchanged and an action is appended with its tag, and the matching confirmation is returned |
| Executor.ActionEntryIdentifiesCommand | src/executor.rs:60-85 | the tags "Prescription: ", "Exam Request: " and "Referral: " tell apart the commands that logged an action |
| Executor.CommitReply | src/executor.rs:87-93 | with an encounter open, a commit leaves the manager in `CommitStep`'s new state and replies with the file it wrote, or `Error: ` plus the manager's error |
| Executor.RosterBoundaries | src/appointment.rs:87-93 | on the built-in roster, appointments 1 and 10 exist and 0 and 11 do not |
| Executor.VisitScenario | src/executor.rs:11-85 | typed "attend appointment 1", `register complaint "fatigue"` and `prescribe "vitamin D"` report the started encounter for Jane Doe and leave an encounter holding the complaint and the prescription |
| Executor.VisitCommitTwice | src/executor.rs:87-93 | committing that encounter clears the slot and reports the next file name; a second commit is refused with nothing changed |
| Executor.VisitExport | src/fhir.rs:70-155 | that visit exports status "finished", no diagnosis, reason "chief-complaint" with text "fatigue", notes "complaint: fatigue" then "Prescription: vitamin D" |
| Autocomplete.Filter | src/autocomplete.rs:103-110 | exactly the table entries that start with the prefix, kept in table order |
| Autocomplete.FilterCharacterised | src/autocomplete.rs:103-110 | on a table without repeats, any sequence of the matching entries in table order is the filter's result |
| Autocomplete.Suggest | src/autocomplete.rs:48-118 | every candidate shows what it inserts and is a command or `register <section>`; a non-zero offset is given only after "register " |
| Autocomplete.Complete | src/autocomplete.rs:42-119 | the offset is 0 or 9 and never past the cursor; every candidate's display equals its replacement |
| Autocomplete.CompleteEmpty | src/autocomplete.rs:51-61 | an empty prefix offers all ten commands in table order at offset 0 |
| Autocomplete.CompleteRegisterOnly | src/autocomplete.rs:64-79 | exactly "register " offers the three `register <section>` commands in order at offset 9 |
| Autocomplete.CompleteRegisterPartial | src/autocomplete.rs:81-97 | "register <partial>" offers `register <s>` exactly for the sections starting with the rest after stripping leading "register " repeats, in order, at offset 9; with none, nothing at offset 0 |
| Autocomplete.CompleteAttend | src/autocomplete.rs:98-100 | any prefix starting "attend appointment " gets nothing at offset 0 |
| Autocomplete.CompleteCommands | src/autocomplete.rs:102-118 | any other prefix gets exactly the commands starting with it, in table order, at offset 0 |
| Autocomplete.CompleteCommandsUnique | src/autocomplete.rs:102-118 | any sequence of the matching commands in table order is what completion offers |
| Autocomplete.ExampleUpperCase | src/autocomplete.rs:48 | "COMMIT" is completed as "commit" would be |
| Autocomplete.CompleteDoublesRegisterWord | src/autocomplete.rs:79-95 | "register comp" is offered "register complaint" at offset 9, which edits the line into "register register complaint" |
| Autocomplete.CompleteCorrected | src/autocomplete.rs:42-119 | the completer with `register` candidates at offset 0: the offset is always 0 |
| Autocomplete.CorrectedCompletesToEntry | src/autocomplete.rs:64-97 | accepting any corrected candidate leaves a whole command or `register <section>` before the cursor |
| Autocomplete.CorrectedSameCandidates | src/autocomplete.rs:64-97 | the correction changes only the offset, never the candidates |
| Autocomplete.ExampleCorrectedRegister | src/autocomplete.rs:79-95 | corrected, "register comp" becomes "register complaint" |
| Autocomplete.Hint | src/autocomplete.rs:125-138 | a hint is given exactly for the lines "fetch", "commit", "register " and "attend " |
| Autocomplete.HintCompletesLine | src/autocomplete.rs:127-134 | the hints for "fetch" and "commit" complete them to commands, and the hint for "attend " extends it to the attend command |
| Autocomplete.HintListsSections | src/autocomplete.rs:131-132 | the "register " hint is the three sections in table order, joined by `|` |

## Left out

- `src/main.rs` is not part of this model. It holds the interactive loop, the rustyline editor, printing and the `exit` check, all of which are I/O.
- The regex engine: each anchored pattern of `parse` is written out as prefix, suffix and character checks.
  - `\d+` that then parses as `usize` becomes non-empty ASCII digits with a value of at most 2^64-1. A non-ASCII decimal digit matches `\d` but fails the `usize` parse, so it falls through to the later rules just as a non-digit does.
  - `"(.+)"$` becomes: a non-empty payload without a newline, ending in a final quote.
- `Text.Lower`: only ASCII letters are lowered, not the full Unicode `to_lowercase`. Completion's outcome is the same either way. The only non-ASCII characters that lowercase into ASCII are U+212A (to `k`) and U+0130 (to `i` plus U+0307). No table entry or matched prefix contains `k` or U+0307, so there is nothing for those characters to match in either version. The offsets returned are constants.
- `Autocomplete.Complete`: the cursor `pos` is a character index. rustyline gives a byte offset, and slicing panics off a character boundary.
- `Autocomplete.ApplyCompletion` stands for rustyline's editing of the line once a candidate is accepted, which replaces the text from the offset to the cursor. rustyline itself is not part of this model.
- The rustyline plumbing is left out: `Context`, `ReadlineError`, `Helper`, `Highlighter` (ANSI colouring; the line is returned unchanged) and `Validator` (accepts every line), along with `MedicalDSLHelper::new`, which holds no state.
- `lazy_static` and the `Mutex` around the managers: they become the two fields of one `Session` object, and concurrency is not modelled.
- `AppointmentManager::get_appointments` (src/appointment.rs:83-85) is read as the `appointments` field.
- Serialisation and writing: `serde_json::to_string_pretty` and `std::fs::write` are not modelled.
  - Their outcome is the parameter `SinkOutcome`, and their error texts are its payload.
  - The JSON layout (field names, `#[serde(flatten)]` of the resource header) is not modelled. `Fhir.Encounter.encounterClass` stands for the JSON field `class`.
- `chrono::Local::now` and RFC 3339 formatting: the reading is the parameter `now`. The source reads the clock once (src/fhir.rs:77), so one value fills `lastUpdated`, `start` and `end`.
- Appointments.EncounterManager.CommitEncounter: the counter is a `nat`. Overflow of the `usize` counter after 2^64 commits is not modelled.

## Findings

| source | as written | input that shows it | evidently intended | confidence | as-written member | corrected member |
|---|---|---|---|---|---|---|
| src/autocomplete.rs:79-95 | register candidates carry the whole command `register <section>` as their replacement but start at offset 9, just after "register " | line "register comp" with the cursor at 13: accepting "register complaint" gives "register register complaint" | start at offset 0, as the other branches do, so that the accepted line reads "register complaint" | not executed | Autocomplete.CompleteDoublesRegisterWord | Autocomplete.CorrectedCompletesToEntry |
