/**
 * The object-level edit rule (`CanEditEntry`): which users may edit or
 * revert which entries. It is an enumerated table over the user's role, the
 * entry's author role and the entry's type.
 */
module Permissions {
  import opened Models

  /** `CanEditEntry.has_object_permission(request, view, obj)` for `request.user == u`. */
  function HasObjectPermission(u: Actor, obj: Entry): bool
  {
    if u.role == RoleAdmin then true
    else if u.role == RoleStaff then obj.authorRole == ByStaff && obj.entryType == StaffNote
    else if u.role == RoleClinician then obj.authorRole == ByClinician && obj.entryType == ClinicianNote
    else false
  }

  /** The non-admin grants, as (role, author_role, type) names. */
  const EditGrants: set<(string, string, string)> :=
    {("staff", "staff", "staff_note"), ("clinician", "clinician", "clinician_note")}

  /** The rule is exactly: admin, or one of the enumerated grants. */
  lemma EditRuleTable(u: Actor, obj: Entry)
    ensures HasObjectPermission(u, obj)
        <==> u.role == RoleAdmin
             || (RoleName(u.role), AuthorRoleName(obj.authorRole), TypeName(obj.entryType)) in EditGrants
  {
    var key := (RoleName(u.role), AuthorRoleName(obj.authorRole), TypeName(obj.entryType));
    if key == ("staff", "staff", "staff_note") {
      assert u.role == RoleStaff by { assert key.0[0] == 's'; }
      assert obj.authorRole == ByStaff by { assert key.1[0] == 's'; }
      assert obj.entryType == StaffNote by { assert key.2[0] == 's' && key.2[1] == 't'; }
    }
    if key == ("clinician", "clinician", "clinician_note") {
      assert u.role == RoleClinician by { assert key.0[0] == 'c'; }
      assert obj.authorRole == ByClinician by { assert key.1[0] == 'c'; }
      assert obj.entryType == ClinicianNote by { assert key.2[0] == 'c'; }
    }
  }

  lemma AdminMayEditAnything(u: Actor, obj: Entry)
    requires u.role == RoleAdmin
    ensures HasObjectPermission(u, obj)
  {
  }

  lemma StaffEditRule(u: Actor, obj: Entry)
    requires u.role == RoleStaff
    ensures HasObjectPermission(u, obj) <==> obj.authorRole == ByStaff && obj.entryType == StaffNote
  {
  }

  lemma ClinicianEditRule(u: Actor, obj: Entry)
    requires u.role == RoleClinician
    ensures HasObjectPermission(u, obj) <==> obj.authorRole == ByClinician && obj.entryType == ClinicianNote
  {
  }

  lemma PatientNeverEdits(u: Actor, obj: Entry)
    requires u.role == RolePatient
    ensures !HasObjectPermission(u, obj)
  {
  }

  /** Machine-generated entries, system events and system-authored entries are admin-only. */
  lemma MachineEntriesAdminOnly(u: Actor, obj: Entry)
    requires u.role != RoleAdmin
    requires IsAiType(obj.entryType) || obj.entryType == SystemEvent || obj.authorRole == BySystem
    ensures !HasObjectPermission(u, obj)
  {
    AiTypes(obj.entryType);
  }

  /** Only the role, the author role and the type are consulted; author identity and clinic are not. */
  lemma DecidedByRoleAuthorRoleType(u1: Actor, u2: Actor, o1: Entry, o2: Entry)
    requires u1.role == u2.role && o1.authorRole == o2.authorRole && o1.entryType == o2.entryType
    ensures HasObjectPermission(u1, o1) == HasObjectPermission(u2, o2)
  {
  }
}
