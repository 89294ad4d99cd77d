/**
 * The records of the notes app (patients, entries, version snapshots,
 * highlights, audit records), the closed choice sets their fields draw from,
 * and the database that holds them as tables.
 *
 * Rows get increasing ids on creation, so a table kept in id order is also in
 * creation order: "newest first by created_at" is the table reversed.
 */
module Models {
  import opened Util

  /* ---- closed choice sets ---- */

  /** A user's role. */
  datatype Role = RolePatient | RoleStaff | RoleClinician | RoleAdmin

  function RoleName(r: Role): string
  {
    match r
    case RolePatient => "patient"
    case RoleStaff => "staff"
    case RoleClinician => "clinician"
    case RoleAdmin => "admin"
  }

  /** The role recorded on an entry as its author's. */
  datatype AuthorRole = ByPatient | ByStaff | ByClinician | BySystem

  function AuthorRoleName(a: AuthorRole): string
  {
    match a
    case ByPatient => "patient"
    case ByStaff => "staff"
    case ByClinician => "clinician"
    case BySystem => "system"
  }

  datatype EntryType =
    | StaffNote
    | ClinicianNote
    | AiDoctorConsultSummary
    | AiNurseConsultSummary
    | AiPatientSessionSummary
    | SystemEvent

  function TypeName(t: EntryType): string
  {
    match t
    case StaffNote => "staff_note"
    case ClinicianNote => "clinician_note"
    case AiDoctorConsultSummary => "ai_doctor_consult_summary"
    case AiNurseConsultSummary => "ai_nurse_consult_summary"
    case AiPatientSessionSummary => "ai_patient_session_summary"
    case SystemEvent => "system_event"
  }

  /** `type__startswith="ai_"`. */
  predicate IsAiType(t: EntryType)
  {
    "ai_" <= TypeName(t)
  }

  /** Exactly the three summary types are machine-generated ones. */
  lemma AiTypes(t: EntryType)
    ensures IsAiType(t) <==> t in {AiDoctorConsultSummary, AiNurseConsultSummary, AiPatientSessionSummary}
  {
    match t
    case StaffNote => assert TypeName(t)[0] != 'a';
    case ClinicianNote => assert TypeName(t)[0] != 'a';
    case SystemEvent => assert TypeName(t)[0] != 'a';
    case _ =>
  }

  datatype HighlightStatus = Suggested | Accepted | Rejected

  function StatusName(s: HighlightStatus): string
  {
    match s
    case Suggested => "suggested"
    case Accepted => "accepted"
    case Rejected => "rejected"
  }

  /* ---- records ---- */

  type Id = nat

  datatype Patient = Patient(id: Id, clinicId: string, displayName: string)

  /** The authenticated user making a request. */
  datatype Actor = Actor(id: Id, role: Role, clinicId: Option<string>, patientId: Option<int>)

  datatype Entry = Entry(
    id: Id,
    patientId: Id,
    author: Option<Id>,
    authorRole: AuthorRole,
    entryType: EntryType,
    provenance: string,
    content: string)

  datatype Snapshot = Snapshot(entryId: Id, version: nat, content: string, changedBy: Option<Id>)

  datatype Highlight = Highlight(
    id: Id,
    patientId: Id,
    createdBy: Option<Id>,
    text: string,
    riskReason: string,
    entryId: Id,
    spanStart: int,
    spanEnd: int,
    status: HighlightStatus)

  /** The metadata payload of an audit record; its constructor is the action tag. */
  datatype AuditMeta =
    | EditEntry(entryId: Id, newVersion: nat)
    | RevertEntry(entryId: Id, revertedTo: int, newVersion: nat)
    | GenerateHighlightsRule(created: nat)
    | SetHighlightStatus(highlightId: Id, from: HighlightStatus, to: HighlightStatus)
    | GeneratePatientSummaryMock(entryId: Id)

  function ActionName(m: AuditMeta): string
  {
    match m
    case EditEntry(_, _) => "edit_entry"
    case RevertEntry(_, _, _) => "revert_entry"
    case GenerateHighlightsRule(_) => "generate_highlights_rule"
    case SetHighlightStatus(_, _, _) => "set_highlight_status"
    case GeneratePatientSummaryMock(_) => "generate_patient_summary_mock"
  }

  datatype AuditRecord = AuditRecord(patientId: Id, actor: Option<Id>, meta: AuditMeta)

  function EntryKey(e: Entry): int { e.id }

  function HighlightKey(h: Highlight): int { h.id }

  /* ---- version history of an entry ---- */

  /** `entry.versions`: the snapshots of one entry, in the order they were written. */
  function History(snapshots: seq<Snapshot>, entryId: Id): seq<Snapshot>
  {
    if snapshots == [] then []
    else
      var last := snapshots[|snapshots| - 1];
      History(snapshots[..|snapshots| - 1], entryId) + (if last.entryId == entryId then [last] else [])
  }

  /** Whether a snapshot belongs to the given entry. */
  function OfEntry(entryId: Id): Snapshot -> bool
  {
    (s: Snapshot) => s.entryId == entryId
  }

  /**
   * An entry's history holds exactly the snapshots of the table that belong
   * to it, each as often as in the table and in table order.
   */
  lemma {:induction false} HistorySound(snapshots: seq<Snapshot>, entryId: Id)
    ensures History(snapshots, entryId) == Filter(OfEntry(entryId), snapshots)
    ensures |History(snapshots, entryId)| <= |snapshots|
    ensures forall k :: 0 <= k < |History(snapshots, entryId)| ==>
              History(snapshots, entryId)[k].entryId == entryId && History(snapshots, entryId)[k] in snapshots
    ensures forall k :: 0 <= k < |snapshots| && snapshots[k].entryId == entryId ==> snapshots[k] in History(snapshots, entryId)
  {
    if snapshots != [] {
      HistorySound(snapshots[..|snapshots| - 1], entryId);
      var init := snapshots[..|snapshots| - 1];
      forall k | 0 <= k < |snapshots| - 1 && snapshots[k].entryId == entryId
        ensures snapshots[k] in History(snapshots, entryId)
      {
        assert init[k] == snapshots[k];
      }
    }
  }

  /** Deleting snapshots of other entries leaves an entry's history as it was. */
  lemma {:induction false} HistoryOfFilter(keep: Snapshot -> bool, snapshots: seq<Snapshot>, entryId: Id)
    requires forall k :: 0 <= k < |snapshots| && snapshots[k].entryId == entryId ==> keep(snapshots[k])
    ensures History(Filter(keep, snapshots), entryId) == History(snapshots, entryId)
  {
    if snapshots != [] {
      var init := snapshots[..|snapshots| - 1];
      var last := snapshots[|snapshots| - 1];
      HistoryOfFilter(keep, init, entryId);
      var f := Filter(keep, init);
      if keep(last) {
        assert Filter(keep, snapshots) == f + [last];
        HistoryAppend(f, last, entryId);
      } else {
        assert Filter(keep, snapshots) == f;
      }
    }
  }

  /** An entry none of whose snapshots exists has an empty history. */
  lemma NoSnapshotsEmptyHistory(snapshots: seq<Snapshot>, entryId: Id)
    requires forall k :: 0 <= k < |snapshots| ==> snapshots[k].entryId != entryId
    ensures History(snapshots, entryId) == []
  {
    HistorySound(snapshots, entryId);
  }

  /** Versions are numbered 1, 2, 3, ... without gaps or repeats. */
  ghost predicate Contiguous(h: seq<Snapshot>)
  {
    forall k :: 0 <= k < |h| ==> h[k].version == k + 1
  }

  /** Appending the next version keeps a history contiguous. */
  lemma ContiguousAppend(h: seq<Snapshot>, s: Snapshot)
    requires Contiguous(h) && s.version == |h| + 1
    ensures Contiguous(h + [s])
  {
  }

  /** An entry's live content equals its newest snapshot (if it has any). */
  ghost predicate Consistent(e: Entry, snapshots: seq<Snapshot>)
  {
    var h := History(snapshots, e.id);
    Contiguous(h) && (|h| > 0 ==> e.content == h[|h| - 1].content)
  }

  /** Writing a snapshot extends the history of its own entry only. */
  lemma HistoryAppend(snapshots: seq<Snapshot>, s: Snapshot, entryId: Id)
    ensures History(snapshots + [s], entryId)
         == History(snapshots, entryId) + (if s.entryId == entryId then [s] else [])
  {
    assert (snapshots + [s])[..|snapshots|] == snapshots;
  }

  /* ---- lookups by primary key ---- */

  /**
   * `get_object_or_404(Model, id=...)` on a table whose rows carry their
   * primary key under `key`: the position of the row with that id.
   */
  function FindByKey<T>(key: T -> int, rows: seq<T>, id: int): (r: Option<nat>)
    ensures r.Some? ==> r.value < |rows| && key(rows[r.value]) == id
    ensures r.None? ==> forall i :: 0 <= i < |rows| ==> key(rows[i]) != id
  {
    if rows == [] then None
    else if key(rows[|rows| - 1]) == id then Some(|rows| - 1)
    else FindByKey(key, rows[..|rows| - 1], id)
  }

  function FindEntry(entries: seq<Entry>, id: int): Option<nat>
  {
    FindByKey(EntryKey, entries, id)
  }

  function FindHighlight(highlights: seq<Highlight>, id: int): Option<nat>
  {
    FindByKey(HighlightKey, highlights, id)
  }

  function FindPatient(patients: seq<Patient>, id: int): (r: Option<Patient>)
    ensures r.Some? ==> r.value in patients && r.value.id == id
    ensures r.None? ==> forall i :: 0 <= i < |patients| ==> patients[i].id != id
  {
    if patients == [] then None
    else if patients[|patients| - 1].id == id then Some(patients[|patients| - 1])
    else FindPatient(patients[..|patients| - 1], id)
  }

  /* ---- the database ---- */

  /** The value of every table at one moment. */
  datatype Tables = Tables(
    patients: seq<Patient>,
    entries: seq<Entry>,
    snapshots: seq<Snapshot>,
    highlights: seq<Highlight>,
    audit: seq<AuditRecord>,
    nextEntryId: Id,
    nextHighlightId: Id)

  /** Every entry id lies below `next`, the next id to hand out. */
  ghost predicate EntryIdsBelow(entries: seq<Entry>, next: Id)
  {
    forall i :: 0 <= i < |entries| ==> entries[i].id < next
  }

  ghost predicate HighlightIdsBelow(highlights: seq<Highlight>, next: Id)
  {
    forall i :: 0 <= i < |highlights| ==> highlights[i].id < next
  }

  /** Each highlight belongs to a patient of the patient table. */
  ghost predicate OwnersExist(highlights: seq<Highlight>, patients: seq<Patient>)
  {
    forall i :: 0 <= i < |highlights| ==> FindPatient(patients, highlights[i].patientId).Some?
  }

  /** Every snapshot belongs to an entry id already handed out. */
  ghost predicate SnapshotsIssued(snapshots: seq<Snapshot>, next: Id)
  {
    forall k :: 0 <= k < |snapshots| ==> snapshots[k].entryId < next
  }

  ghost predicate AllConsistent(entries: seq<Entry>, snapshots: seq<Snapshot>)
  {
    forall i :: 0 <= i < |entries| ==> Consistent(entries[i], snapshots)
  }

  /**
   * The invariants of the tables: ids ascend in creation order and lie below
   * the next id to hand out, every snapshot belongs to an id handed out, each
   * highlight's patient exists, and each entry's history is contiguous with
   * its live content equal to the newest snapshot.
   */
  ghost predicate Wf(t: Tables)
  {
    && Ascending(EntryKey, t.entries)
    && EntryIdsBelow(t.entries, t.nextEntryId)
    && Ascending(HighlightKey, t.highlights)
    && HighlightIdsBelow(t.highlights, t.nextHighlightId)
    && OwnersExist(t.highlights, t.patients)
    && SnapshotsIssued(t.snapshots, t.nextEntryId)
    && AllConsistent(t.entries, t.snapshots)
  }

  /**
   * The database as mutable tables. Operations append to, delete from and
   * update rows of these tables in place.
   */
  class Database {
    var patients: seq<Patient>
    var entries: seq<Entry>
    var snapshots: seq<Snapshot>
    var highlights: seq<Highlight>
    var audit: seq<AuditRecord>
    var nextEntryId: Id
    var nextHighlightId: Id

    function State(): Tables
      reads this
    {
      Tables(patients, entries, snapshots, highlights, audit, nextEntryId, nextHighlightId)
    }

    ghost predicate Valid()
      reads this
    {
      Wf(State())
    }

    /** A database holding only the given patients. */
    constructor (patients: seq<Patient>)
      ensures Valid()
      ensures State() == Tables(patients, [], [], [], [], 0, 0)
    {
      this.patients := patients;
      entries, snapshots, highlights, audit := [], [], [], [];
      nextEntryId, nextHighlightId := 0, 0;
    }
  }
}
