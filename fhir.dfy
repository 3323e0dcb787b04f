/** The clinical record an encounter is exported to on commit, shaped after
    the HL7 FHIR R4 Encounter resource, and the transform that builds it. */
module Fhir {
  import opened Wrappers

  type U32 = n: nat | n <= 0xFFFF_FFFF

  datatype Meta = Meta(versionId: string, lastUpdated: string)

  /** The resource header; in the serialised form its fields sit at the top
      level of the encounter object. */
  datatype Resource = Resource(resourceType: string, id: string, meta: Meta)

  datatype Coding = Coding(system: string, code: string, display: string)

  datatype Reference = Reference(reference: string, display: string)

  datatype Period = Period(start: string, end: Option<string>)

  datatype CodeableConcept = CodeableConcept(coding: seq<Coding>, text: string)

  datatype Diagnosis = Diagnosis(condition: Reference, rank: Option<U32>)

  datatype Annotation = Annotation(text: string)

  /** `encounterClass` is the JSON field `class`, a reserved word here. */
  datatype Encounter = Encounter(
    resource: Resource,
    status: string,
    encounterClass: Coding,
    subject: Reference,
    period: Period,
    reasonCode: seq<CodeableConcept>,
    diagnosis: seq<Diagnosis>,
    note: seq<Annotation>)

  const DIAGNOSIS_KEY := "diagnostic hypothesis"
  const COMPLAINT_KEY := "complaint"
  const REASON_SYSTEM := "http://terminology.hl7.org/CodeSystem/reason-codes"
  const ACT_CODE_SYSTEM := "http://terminology.hl7.org/CodeSystem/v3-ActCode"
  const AMBULATORY := Coding(ACT_CODE_SYSTEM, "AMB", "ambulatory")

  /** Present exactly when a diagnostic hypothesis was registered: one entry,
      ranked first, pointing at the condition of this record. */
  function Diagnoses(id: string, sections: map<string, string>): (r: seq<Diagnosis>)
    ensures |r| <= 1
    ensures r != [] <==> DIAGNOSIS_KEY in sections
    ensures r != [] ==> r[0].condition == Reference("Condition/" + id, sections[DIAGNOSIS_KEY])
                        && r[0].rank == Some(1)
  {
    if DIAGNOSIS_KEY in sections then
      [Diagnosis(Reference("Condition/" + id, sections[DIAGNOSIS_KEY]), Some(1))]
    else []
  }

  /** Always exactly one reason: the chief complaint when one was registered,
      else the visit reason of the appointment, both in the same code system. */
  function ReasonCode(sections: map<string, string>, reason: string): (r: seq<CodeableConcept>)
    ensures |r| == 1 && |r[0].coding| == 1 && r[0].coding[0].system == REASON_SYSTEM
    ensures COMPLAINT_KEY in sections ==>
      r[0].coding[0].code == "chief-complaint" && r[0].text == sections[COMPLAINT_KEY]
    ensures COMPLAINT_KEY !in sections ==>
      r[0].coding[0].code == "visit" && r[0].text == reason
  {
    if COMPLAINT_KEY in sections then
      [CodeableConcept([Coding(REASON_SYSTEM, "chief-complaint", "Chief complaint")], sections[COMPLAINT_KEY])]
    else
      [CodeableConcept([Coding(REASON_SYSTEM, "visit", "Visit")], reason)]
  }

  /** The note text of one registered section. */
  function SectionNote(section: string, content: string): string
  {
    section + ": " + content
  }

  function Texts(notes: seq<Annotation>): (r: seq<string>)
    ensures |r| == |notes| && forall i :: 0 <= i < |notes| ==> r[i] == notes[i].text
  {
    seq(|notes|, i requires 0 <= i < |notes| => notes[i].text)
  }

  /** Some element of a non-empty set of keys. */
  ghost function Pick(keys: set<string>): string
    requires keys != {}
  {
    var k :| k in keys; k
  }

  /** The section notes of the keys `keys` of `sections`, as a multiset:
      the map's iteration order is not specified. */
  ghost function NotesOver(sections: map<string, string>, keys: set<string>): multiset<string>
    requires keys <= sections.Keys
    decreases keys
  {
    if keys == {} then multiset{}
    else
      var k := Pick(keys);
      multiset{SectionNote(k, sections[k])} + NotesOver(sections, keys - {k})
  }

  ghost function SectionNotes(sections: map<string, string>): multiset<string>
  {
    NotesOver(sections, sections.Keys)
  }

  /** The notes of any key can be split off first, whichever key the
      definition happens to pick. */
  lemma {:induction false} NotesOverRemove(sections: map<string, string>, keys: set<string>, j: string)
    requires keys <= sections.Keys && j in keys
    ensures NotesOver(sections, keys) == multiset{SectionNote(j, sections[j])} + NotesOver(sections, keys - {j})
    decreases keys
  {
    var k := Pick(keys);
    if k != j {
      NotesOverRemove(sections, keys - {k}, j);
      NotesOverRemove(sections, keys - {j}, k);
      assert keys - {k} - {j} == keys - {j} - {k};
    }
  }

  /** One note per key. */
  lemma {:induction false} NotesOverSize(sections: map<string, string>, keys: set<string>)
    requires keys <= sections.Keys
    ensures |NotesOver(sections, keys)| == |keys|
    decreases keys
  {
    if keys != {} {
      NotesOverSize(sections, keys - {Pick(keys)});
    }
  }

  /** The note list: one note per registered section, in some order of the
      keys, followed by the actions in the order they were logged. */
  ghost predicate NotesFor(notes: seq<Annotation>, sections: map<string, string>, actions: seq<string>)
  {
    && |notes| == |sections| + |actions|
    && multiset(Texts(notes[..|sections|])) == SectionNotes(sections)
    && Texts(notes[|sections|..]) == actions
  }

  /** Everything the export promises about its result. */
  ghost predicate IsExportOf(e: Encounter, id: string, patientName: string, reason: string,
                             sections: map<string, string>, actions: seq<string>, now: string)
  {
    && e.resource == Resource("Encounter", id, Meta("1", now))
    && e.status == "finished"
    && e.encounterClass == AMBULATORY
    && e.subject == Reference("Patient/" + id, patientName)
    && e.period == Period(now, Some(now))
    && e.reasonCode == ReasonCode(sections, reason)
    && e.diagnosis == Diagnoses(id, sections)
    && NotesFor(e.note, sections, actions)
  }

  lemma TextsAppend(notes: seq<Annotation>, a: Annotation)
    ensures Texts(notes + [a]) == Texts(notes) + [a.text]
  {
  }

  lemma TextsSplit(notes: seq<Annotation>, n: nat)
    requires n <= |notes|
    ensures Texts(notes) == Texts(notes[..n]) + Texts(notes[n..])
  {
  }

  /** The first loop: one note per section, in the map's iteration order,
      which is any order of the keys. */
  method CollectSectionNotes(sections: map<string, string>) returns (notes: seq<Annotation>)
    ensures |notes| == |sections|
    ensures multiset(Texts(notes)) == SectionNotes(sections)
  {
    notes := [];
    var pending := sections.Keys;
    while pending != {}
      invariant pending <= sections.Keys
      invariant |notes| + |pending| == |sections|
      invariant multiset(Texts(notes)) + NotesOver(sections, pending) == SectionNotes(sections)
      decreases pending
    {
      var k :| k in pending;
      var note := Annotation(SectionNote(k, sections[k]));
      NotesOverRemove(sections, pending, k);
      TextsAppend(notes, note);
      notes := notes + [note];
      pending := pending - {k};
    }
  }

  /** The note list: the section notes, then the second loop, which
      appends the actions in the order they were logged. */
  method BuildNotes(sections: map<string, string>, actions: seq<string>) returns (notes: seq<Annotation>)
    ensures NotesFor(notes, sections, actions)
  {
    notes := CollectSectionNotes(sections);
    ghost var sectionNotes := notes;
    var i := 0;
    while i < |actions|
      invariant 0 <= i <= |actions|
      invariant |notes| == |sectionNotes| + i
      invariant notes[..|sectionNotes|] == sectionNotes
      invariant Texts(notes[|sectionNotes|..]) == actions[..i]
    {
      var note := Annotation(actions[i]);
      assert (notes + [note])[|sectionNotes|..] == notes[|sectionNotes|..] + [note];
      TextsAppend(notes[|sectionNotes|..], note);
      notes := notes + [note];
      i := i + 1;
    }
    assert actions[..i] == actions;
  }

  /** `create_encounter`, with the clock reading passed in as `now`. */
  method CreateEncounter(id: string, patientName: string, reason: string,
                         sections: map<string, string>, actions: seq<string>, now: string)
    returns (e: Encounter)
    ensures IsExportOf(e, id, patientName, reason, sections, actions, now)
  {
    var diagnoses := Diagnoses(id, sections);
    var notes := BuildNotes(sections, actions);
    var reasonCode := ReasonCode(sections, reason);
    e := Encounter(
      Resource("Encounter", id, Meta("1", now)),
      "finished",
      AMBULATORY,
      Reference("Patient/" + id, patientName),
      Period(now, Some(now)),
      reasonCode,
      diagnoses,
      notes);
  }

  // ---------------------------------------------------------------------
  // Properties of the export

  /** The diagnosis depends on the diagnostic hypothesis section alone. */
  lemma DiagnosisOnlyFromHypothesis(id: string, s1: map<string, string>, s2: map<string, string>)
    requires DIAGNOSIS_KEY in s1 <==> DIAGNOSIS_KEY in s2
    requires DIAGNOSIS_KEY in s1 ==> s1[DIAGNOSIS_KEY] == s2[DIAGNOSIS_KEY]
    ensures Diagnoses(id, s1) == Diagnoses(id, s2)
  {
  }

  /** The reason code depends on the complaint section and the visit reason alone. */
  lemma ReasonOnlyFromComplaint(s1: map<string, string>, s2: map<string, string>, reason: string)
    requires COMPLAINT_KEY in s1 <==> COMPLAINT_KEY in s2
    requires COMPLAINT_KEY in s1 ==> s1[COMPLAINT_KEY] == s2[COMPLAINT_KEY]
    ensures ReasonCode(s1, reason) == ReasonCode(s2, reason)
  {
  }

  /** Two exports of the same encounter agree on every field but the order
      of their section notes, and even those are the same notes. */
  lemma ExportUniqueUpToNoteOrder(e1: Encounter, e2: Encounter, id: string, patientName: string,
                                  reason: string, sections: map<string, string>,
                                  actions: seq<string>, now: string)
    requires IsExportOf(e1, id, patientName, reason, sections, actions, now)
    requires IsExportOf(e2, id, patientName, reason, sections, actions, now)
    ensures e1.(note := []) == e2.(note := [])
    ensures |e1.note| == |e2.note| && multiset(Texts(e1.note)) == multiset(Texts(e2.note))
    ensures e1.note[|sections|..] == e2.note[|sections|..]
  {
    var n := |sections|;
    TextsSplit(e1.note, n);
    TextsSplit(e2.note, n);
    TextsInjective(e1.note[n..], e2.note[n..]);
  }

  lemma TextsInjective(a1: seq<Annotation>, a2: seq<Annotation>)
    requires Texts(a1) == Texts(a2)
    ensures a1 == a2
  {
    assert |a1| == |Texts(a1)|;
    forall i | 0 <= i < |a1| ensures a1[i] == a2[i] {
      assert a1[i].text == Texts(a1)[i];
    }
  }

  /** Registering a section again replaces its note: the notes of the
      updated map are those of the other sections plus the new one. */
  lemma UpsertReplacesNote(sections: map<string, string>, section: string, details: string)
    ensures SectionNotes(sections[section := details])
         == SectionNotes(sections - {section}) + multiset{SectionNote(section, details)}
  {
    var m := sections[section := details];
    NotesOverRemove(m, m.Keys, section);
    assert m.Keys - {section} == (sections - {section}).Keys;
    NotesOverSame(m, sections - {section}, m.Keys - {section});
  }

  /** Section notes only depend on the entries they are taken from. */
  lemma {:induction false} NotesOverSame(m1: map<string, string>, m2: map<string, string>, keys: set<string>)
    requires keys <= m1.Keys && keys <= m2.Keys
    requires forall k :: k in keys ==> m1[k] == m2[k]
    ensures NotesOver(m1, keys) == NotesOver(m2, keys)
    decreases keys
  {
    if keys != {} {
      NotesOverSame(m1, m2, keys - {Pick(keys)});
    }
  }
}
