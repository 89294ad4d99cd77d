/**
 * Access scoping: which of a patient's entries and highlights a user may see.
 * The entry filter raises `PermissionError` (here `Denied`) across clinics and
 * for a patient-role user looking at another patient; both filters return rows
 * newest first.
 */
module Rbac {
  import opened Util
  import opened Models

  /** Python truthiness of a nullable string: present and non-empty. */
  predicate Truthy(s: Option<string>)
  {
    s.Some? && s.value != ""
  }

  /**
   * The clinic-scope refusal shared by the read filter and the views: a
   * non-admin whose clinic is set and differs from the patient's.
   */
  predicate CrossClinic(u: Actor, p: Patient)
  {
    u.role != RoleAdmin && Truthy(u.clinicId) && u.clinicId.value != p.clinicId
  }

  datatype Scoped<T> = Granted(items: seq<T>) | Denied(reason: string)

  function EntryOfPatient(pid: Id): Entry -> bool
  {
    (e: Entry) => e.patientId == pid
  }

  function PatientFacingEntry(pid: Id): Entry -> bool
  {
    (e: Entry) => e.patientId == pid && e.entryType == AiPatientSessionSummary
  }

  function HighlightOfPatient(pid: Id): Highlight -> bool
  {
    (h: Highlight) => h.patientId == pid
  }

  function IsAccepted(h: Highlight): bool
  {
    h.status == Accepted
  }

  /** `filter_patient_queryset(user, patient)` over the entry table. */
  function FilterPatientQueryset(u: Actor, p: Patient, entries: seq<Entry>): (r: Scoped<Entry>)
    ensures r.Denied? <==> CrossClinic(u, p) || (u.role == RolePatient && u.patientId != Some(p.id))
    ensures CrossClinic(u, p) ==> r == Denied("Cross-clinic access denied")
    ensures r.Granted? ==> forall e :: e in r.items ==> e in entries && e.patientId == p.id
    ensures r.Granted? && u.role == RolePatient ==>
              forall e :: e in entries ==>
                (e in r.items <==> e.patientId == p.id && e.entryType == AiPatientSessionSummary)
    ensures r.Granted? && u.role != RolePatient ==>
              forall e :: e in entries ==> (e in r.items <==> e.patientId == p.id)
    ensures r.Granted? && Ascending(EntryKey, entries) ==> Descending(EntryKey, r.items)
  {
    if CrossClinic(u, p) then Denied("Cross-clinic access denied")
    else if u.role == RolePatient then
      if u.patientId != Some(p.id) then Denied("Patient can only access self")
      else NewestFirstOf(PatientFacingEntry(p.id), entries)
    else NewestFirstOf(EntryOfPatient(p.id), entries)
  }

  /** `Entry.objects.filter(...).order_by("-created_at")`. */
  function NewestFirstOf(keep: Entry -> bool, entries: seq<Entry>): (r: Scoped<Entry>)
    ensures r.Granted?
    ensures forall e :: e in r.items <==> e in entries && keep(e)
    ensures Ascending(EntryKey, entries) ==> Descending(EntryKey, r.items)
  {
    NewestFirstMembers(keep, entries);
    NewestFirstOrder(EntryKey, keep, entries);
    Granted(Reverse(Filter(keep, entries)))
  }

  /** `filter_highlights_queryset(user, patient)` over the highlight table. */
  function FilterHighlightsQueryset(u: Actor, p: Patient, highlights: seq<Highlight>): (r: seq<Highlight>)
    ensures u.role == RolePatient ==>
              forall h :: h in r <==> h in highlights && h.patientId == p.id && h.status == Accepted
    ensures u.role != RolePatient ==>
              forall h :: h in r <==> h in highlights && h.patientId == p.id
    ensures Ascending(HighlightKey, highlights) ==> Descending(HighlightKey, r)
  {
    var qs := Reverse(Filter(HighlightOfPatient(p.id), highlights));
    NewestFirstMembers(HighlightOfPatient(p.id), highlights);
    NewestFirstOrder(HighlightKey, HighlightOfPatient(p.id), highlights);
    FilterDescending(HighlightKey, IsAccepted, qs);
    if u.role == RolePatient then Filter(IsAccepted, qs) else qs
  }

  /** A patient-role user never sees staff or clinician notes, but does see their own session summaries. */
  lemma PatientTimelineIsPatientFacing(u: Actor, p: Patient, entries: seq<Entry>, e: Entry)
    requires u.role == RolePatient && u.patientId == Some(p.id) && !CrossClinic(u, p)
    requires e in entries && e.patientId == p.id
    ensures FilterPatientQueryset(u, p, entries).Granted?
    ensures e.entryType in {StaffNote, ClinicianNote} ==> e !in FilterPatientQueryset(u, p, entries).items
    ensures e.entryType == AiPatientSessionSummary ==> e in FilterPatientQueryset(u, p, entries).items
  {
  }

  /** A staff user of clinic A looking at a patient of clinic B is refused. */
  lemma CrossClinicStaffDenied(u: Actor, p: Patient, entries: seq<Entry>)
    requires u.role == RoleStaff && u.clinicId == Some("clinicA") && p.clinicId == "clinicB"
    ensures FilterPatientQueryset(u, p, entries) == Denied("Cross-clinic access denied")
  {
  }

  /** Admins, and users with no clinic set, are never refused by the clinic check. */
  lemma ClinicCheckExemptions(u: Actor, p: Patient)
    requires u.role == RoleAdmin || u.clinicId == None || u.clinicId == Some("")
    ensures !CrossClinic(u, p)
  {
  }

  /** A patient-role user sees accepted highlights only; others see every status. */
  lemma PatientSeesOnlyAccepted(u: Actor, p: Patient, highlights: seq<Highlight>, h: Highlight)
    requires u.role == RolePatient && h in highlights && h.patientId == p.id
    ensures h in FilterHighlightsQueryset(u, p, highlights) <==> h.status == Accepted
  {
  }
}
