/**
 * The API views of the notes app: the chains of checks each request goes
 * through before it reads or changes the tables, and the changes themselves.
 *
 * Each view is specified by a function from the tables before the request to
 * an `Outcome` (the response and the tables after it); the views that change
 * state are also written as methods on the `Database` and proved to produce
 * exactly that outcome. The identity of the requesting user is an `Actor`,
 * the request body's fields are `BodyValue`s and a header is an optional string.
 */
module Views {
  import opened Util
  import opened Text
  import opened Models
  import opened Permissions
  import opened Rbac
  import opened Editing
  import opened Highlights

  /** A field of the JSON request body: missing, a string, or a JSON value of another kind. */
  datatype BodyValue = Missing | Str(s: string) | NonString

  /** `request.data.get(name, "")` where a string is expected. */
  function ContentOf(v: BodyValue): string
  {
    if v.Str? then v.s else ""
  }

  /** The response a view returns: its JSON payload, with the status code implied by the constructor. */
  datatype Response =
    | CareNote(patientId: Id, displayName: string, highlights: seq<Highlight>, timeline: seq<Entry>)
    | EditDone(entryId: Id, newVersion: nat)
    | VersionList(entryId: Id, versions: seq<Snapshot>)
    | RevertDone(entryId: Id, newVersion: nat, revertedTo: int)
    | HighlightsGenerated(created: nat, highlights: seq<Highlight>)
    | StatusSet(highlightId: Id, status: HighlightStatus)
    | SummaryCreated(entryId: Id, provenance: string)
    | BadRequest(detail: string)
    | Forbidden(detail: string)
    | NotFound(detail: string)
    | Conflict(detail: string, currentVersion: nat)

  /** The response and the tables after the request. */
  datatype Outcome = Outcome(response: Response, after: Tables)

  /** The detail of the framework's refusal when an object-level permission check fails. */
  const PermissionDenied := "You do not have permission to perform this action."

  /** The detail of the framework's response when `get_object_or_404` finds no row. */
  const ObjectNotFound := "Not found."

  /** `not isinstance(content, str) or not content.strip()`, said without `strip`. */
  ghost predicate Blank(v: BodyValue)
  {
    v.NonString? || forall k :: 0 <= k < |ContentOf(v)| ==> IsSpace(ContentOf(v)[k])
  }

  /* ---- EntryEditView.post ---- */

  /** The reasons `EntryEditView.post` refuses an edit, in the order it checks them. */
  datatype EditRefused = NoPermission | ContentRequired | InvalidIfMatch | VersionConflict(current: nat)

  /** The response to each refusal. */
  function RefusalResponse(r: EditRefused): Response
  {
    match r
    case NoPermission => Forbidden(PermissionDenied)
    case ContentRequired => BadRequest("content required")
    case InvalidIfMatch => BadRequest("Invalid If-Match")
    case VersionConflict(current) => Conflict("Version conflict", current)
  }

  /**
   * The checks `EntryEditView.post` makes before it writes: the object
   * permission, a non-blank string content, an `If-Match` header that
   * parses as an integer, and that integer equal to the current version.
   * None when every check passes.
   */
  function EditRefusal(u: Actor, e: Entry, content: BodyValue, ifMatch: Option<string>, current: nat): Option<EditRefused>
  {
    if !HasObjectPermission(u, e) then Some(NoPermission)
    else if content.NonString? || Strip(ContentOf(content)) == [] then Some(ContentRequired)
    else if ifMatch.Some? && ParseInt(ifMatch.value).None? then Some(InvalidIfMatch)
    else if ifMatch.Some? && ParseInt(ifMatch.value).value != current then Some(VersionConflict(current))
    else None
  }

  /**
   * Each refusal of the edit view happens exactly when the checks before it
   * pass and its own fails; a version conflict reports the current version.
   */
  lemma EditCheckOrder(u: Actor, e: Entry, content: BodyValue, ifMatch: Option<string>, current: nat)
    ensures var r := EditRefusal(u, e, content, ifMatch, current);
            var perm := HasObjectPermission(u, e);
            var parsed := if ifMatch.Some? then ParseInt(ifMatch.value) else None;
            && (r == Some(NoPermission) <==> !perm)
            && (r == Some(ContentRequired) <==> perm && Blank(content))
            && (r == Some(InvalidIfMatch) <==> perm && !Blank(content) && ifMatch.Some? && parsed.None?)
            && (r == Some(VersionConflict(current)) <==> perm && !Blank(content) && parsed.Some? && parsed.value != current)
            && (r.None? <==> perm && !Blank(content) && (ifMatch.None? || parsed == Some(current)))
  {
    StripEmptyIffBlank(ContentOf(content));
  }

  /** `EntryEditView.post`: the checks, then the edit. */
  function EditView(t: Tables, u: Actor, entryId: int, content: BodyValue, ifMatch: Option<string>): Outcome
  {
    match FindEntry(t.entries, entryId)
    case None => Outcome(NotFound(ObjectNotFound), t)
    case Some(i) =>
      var e := t.entries[i];
      var current := LatestVersion(t.snapshots, e.id);
      match EditRefusal(u, e, content, ifMatch, current)
      case Some(refusal) => Outcome(RefusalResponse(refusal), t)
      case None => Outcome(EditDone(e.id, current + 1), Edited(t, i, ContentOf(content), Some(u.id)))
  }

  /** A missing entry is not found, and every answer but a successful edit leaves the tables as they were. */
  lemma EditRefusalsChangeNothing(t: Tables, u: Actor, entryId: int, content: BodyValue, ifMatch: Option<string>)
    ensures var o := EditView(t, u, entryId, content, ifMatch);
            && (FindEntry(t.entries, entryId).None? ==> o.response == NotFound(ObjectNotFound))
            && (!o.response.EditDone? ==> o.after == t)
            && (o.response.EditDone? ==> FindEntry(t.entries, entryId).Some? && !Blank(content))
  {
    match FindEntry(t.entries, entryId)
    case None =>
    case Some(i) =>
      EditCheckOrder(u, t.entries[i], content, ifMatch, LatestVersion(t.snapshots, t.entries[i].id));
  }

  /**
   * A permitted edit with non-blank content whose `If-Match` parses as a
   * number other than the current version n is answered with a conflict
   * carrying n, and nothing is written.
   */
  lemma EditStaleIfMatch(t: Tables, u: Actor, i: nat, content: BodyValue, header: string, stale: int)
    requires i < |t.entries| && Ascending(EntryKey, t.entries)
    requires Contiguous(History(t.snapshots, t.entries[i].id))
    requires HasObjectPermission(u, t.entries[i]) && !Blank(content)
    requires ParseInt(header) == Some(stale) && stale != |History(t.snapshots, t.entries[i].id)|
    ensures var o := EditView(t, u, t.entries[i].id, content, Some(header));
            && o.response == Conflict("Version conflict", |History(t.snapshots, t.entries[i].id)|)
            && o.after == t
  {
    var n := |History(t.snapshots, t.entries[i].id)|;
    EntryIdsUnique(t, i);
    LatestIsHistoryLength(t.snapshots, t.entries[i].id);
    EditCheckOrder(u, t.entries[i], content, Some(header), n);
    assert EditRefusal(u, t.entries[i], content, Some(header), n) == Some(VersionConflict(n));
  }

  /**
   * A permitted edit with non-blank content and either no `If-Match` or one
   * that parses as the current version n goes through and answers n+1.
   */
  lemma EditCurrentIfMatch(t: Tables, u: Actor, i: nat, s: string, ifMatch: Option<string>)
    requires i < |t.entries| && Ascending(EntryKey, t.entries)
    requires Contiguous(History(t.snapshots, t.entries[i].id))
    requires HasObjectPermission(u, t.entries[i]) && !Blank(Str(s))
    requires ifMatch.None? || ParseInt(ifMatch.value) == Some(|History(t.snapshots, t.entries[i].id)|)
    ensures var o := EditView(t, u, t.entries[i].id, Str(s), ifMatch);
            && o.response == EditDone(t.entries[i].id, |History(t.snapshots, t.entries[i].id)| + 1)
            && o.after == Edited(t, i, s, Some(u.id))
  {
    var n := |History(t.snapshots, t.entries[i].id)|;
    EntryIdsUnique(t, i);
    LatestIsHistoryLength(t.snapshots, t.entries[i].id);
    EditCheckOrder(u, t.entries[i], Str(s), ifMatch, n);
  }

  /**
   * The numeral of the current version, `str(n)`, is an `If-Match` that lets
   * the edit through (for every n whose `str` CPython can produce).
   */
  lemma EditWithCurrentNumeral(t: Tables, u: Actor, i: nat, s: string)
    requires i < |t.entries| && Ascending(EntryKey, t.entries)
    requires Contiguous(History(t.snapshots, t.entries[i].id))
    requires HasObjectPermission(u, t.entries[i]) && !Blank(Str(s))
    requires |History(t.snapshots, t.entries[i].id)| < Pow10(MaxStrDigits)
    ensures var n := |History(t.snapshots, t.entries[i].id)|;
            EditView(t, u, t.entries[i].id, Str(s), Some(IntToString(n))).response == EditDone(t.entries[i].id, n + 1)
  {
    var n := |History(t.snapshots, t.entries[i].id)|;
    ParseIntRoundTrip(n);
    EditCurrentIfMatch(t, u, i, s, Some(IntToString(n)));
  }
  /**
   * An `If-Match` of more than `MaxStrDigits` digits is refused as invalid
   * (400), not compared with the current version, and nothing is written.
   */
  lemma EditOverlongIfMatch(t: Tables, u: Actor, i: nat, content: BodyValue, header: string)
    requires i < |t.entries| && Ascending(EntryKey, t.entries)
    requires HasObjectPermission(u, t.entries[i]) && !Blank(content)
    requires |header| > MaxStrDigits && forall k :: 0 <= k < |header| ==> IsDigit(header[k])
    ensures var o := EditView(t, u, t.entries[i].id, content, Some(header));
            && o.response == BadRequest("Invalid If-Match")
            && o.after == t
  {
    EntryIdsUnique(t, i);
    ParseIntTooManyDigits(header);
    var n := LatestVersion(t.snapshots, t.entries[i].id);
    EditCheckOrder(u, t.entries[i], content, Some(header), n);
    assert EditRefusal(u, t.entries[i], content, Some(header), n) == Some(InvalidIfMatch);
  }


  /** The edit view keeps the tables well formed. */
  lemma EditViewKeepsWf(t: Tables, u: Actor, entryId: int, content: BodyValue, ifMatch: Option<string>)
    requires Wf(t)
    ensures Wf(EditView(t, u, entryId, content, ifMatch).after)
  {
    if FindEntry(t.entries, entryId).Some? {
      EditKeepsWf(t, FindEntry(t.entries, entryId).value, ContentOf(content), Some(u.id));
    }
  }

  /** On well-formed tables the entry found by an id is the one at its position. */
  lemma EntryIdsUnique(t: Tables, i: nat)
    requires Ascending(EntryKey, t.entries) && i < |t.entries|
    ensures FindEntry(t.entries, t.entries[i].id) == Some(i)
  {
    assert forall j :: 0 <= j < |t.entries| && j != i ==> EntryKey(t.entries[j]) != EntryKey(t.entries[i]);
  }

  /** `EntryEditView.post` on the database. */
  method EntryEditView(db: Database, u: Actor, entryId: int, content: BodyValue, ifMatch: Option<string>)
    returns (resp: Response)
    requires db.Valid()
    modifies db
    ensures db.Valid()
    ensures Outcome(resp, db.State()) == EditView(old(db.State()), u, entryId, content, ifMatch)
  {
    ghost var t := db.State();
    var found := FindEntry(db.entries, entryId);
    if found.None? {
      return NotFound(ObjectNotFound);
    }
    var i := found.value;
    var entry := db.entries[i];
    var current := LatestVersion(db.snapshots, entry.id);
    var refusal := EditRefusal(u, entry, content, ifMatch, current);
    if refusal.Some? {
      assert EditView(t, u, entryId, content, ifMatch) == Outcome(RefusalResponse(refusal.value), t);
      return RefusalResponse(refusal.value);
    }
    assert EditView(t, u, entryId, content, ifMatch)
        == Outcome(EditDone(entry.id, current + 1), Edited(t, i, ContentOf(content), Some(u.id)));
    var newVersion := SnapshotAndUpdateEntry(db, i, ContentOf(content), Some(u.id));
    resp := EditDone(entry.id, newVersion);
  }

  /* ---- EntryVersionsView.get ---- */

  /** `EntryVersionsView.get`: the entry's snapshots, newest version first. */
  function VersionsView(t: Tables, entryId: int): Response
  {
    match FindEntry(t.entries, entryId)
    case None => NotFound(ObjectNotFound)
    case Some(i) => VersionList(t.entries[i].id, Reverse(History(t.snapshots, t.entries[i].id)))
  }

  function VersionKey(s: Snapshot): int { s.version }

  /**
   * On well-formed tables the version list holds exactly the entry's
   * snapshots, numbered n, n-1, ..., 1: strictly descending by version.
   */
  lemma VersionsDescending(t: Tables, i: nat)
    requires Wf(t) && i < |t.entries|
    ensures var r := VersionsView(t, t.entries[i].id);
            var h := History(t.snapshots, t.entries[i].id);
            && r.VersionList? && r.entryId == t.entries[i].id
            && |r.versions| == |h|
            && (forall k :: 0 <= k < |h| ==> r.versions[k].version == |h| - k)
            && (forall s :: s in r.versions <==> s in h)
            && Descending(VersionKey, r.versions)
  {
    EntryIdsUnique(t, i);
    var h := History(t.snapshots, t.entries[i].id);
    assert Consistent(t.entries[i], t.snapshots);
    forall s ensures s in Reverse(h) <==> s in h {
      ReverseMember(h, s);
    }
  }

  /* ---- EntryRevertView.post ---- */

  /** `EntryRevertView.post`: the object permission, then the revert; a missing version is not found. */
  function RevertView(t: Tables, u: Actor, entryId: int, version: int): Outcome
  {
    match FindEntry(t.entries, entryId)
    case None => Outcome(NotFound(ObjectNotFound), t)
    case Some(i) =>
      var e := t.entries[i];
      if !HasObjectPermission(u, e) then Outcome(Forbidden(PermissionDenied), t)
      else match Reverted(t, i, version, Some(u.id))
        case None => Outcome(NotFound("version not found"), t)
        case Some(r) => Outcome(RevertDone(e.id, LatestVersion(t.snapshots, e.id) + 1, version), r)
  }

  /**
   * On well-formed tables, a permitted revert of an entry with n snapshots
   * is not found exactly when the target is not one of 1..n, and then
   * changes nothing; otherwise it answers n+1 and the target, and appends
   * the target's content to the history as version n+1.
   */
  lemma RevertViewOutcome(t: Tables, u: Actor, i: nat, version: int)
    requires Wf(t) && i < |t.entries| && HasObjectPermission(u, t.entries[i])
    ensures var e := t.entries[i];
            var h := History(t.snapshots, e.id);
            var o := RevertView(t, u, e.id, version);
            && (o.response == NotFound("version not found") <==> !(1 <= version <= |h|))
            && (!(1 <= version <= |h|) ==> o.after == t)
            && (1 <= version <= |h| ==>
                  && o.response == RevertDone(e.id, |h| + 1, version)
                  && History(o.after.snapshots, e.id) == h + [Snapshot(e.id, |h| + 1, h[version - 1].content, Some(u.id))]
                  && o.after.entries[i].content == h[version - 1].content)
  {
    var e := t.entries[i];
    var h := History(t.snapshots, e.id);
    EntryIdsUnique(t, i);
    CurrentVersion(t, i);
    assert Consistent(e, t.snapshots);
    FindVersionContiguous(h, version);
    if 1 <= version <= |h| {
      RevertHistory(t, i, version, Some(u.id));
    }
  }

  /** Refusals of the revert view change nothing, and the view keeps the tables well formed. */
  lemma RevertViewKeepsWf(t: Tables, u: Actor, entryId: int, version: int)
    requires Wf(t)
    ensures var o := RevertView(t, u, entryId, version);
            && (!o.response.RevertDone? ==> o.after == t)
            && Wf(o.after)
  {
    var o := RevertView(t, u, entryId, version);
    if o.response.RevertDone? {
      var i := FindEntry(t.entries, entryId).value;
      RevertKeepsWf(t, i, version, Some(u.id), o.after);
    }
  }

  /** `EntryRevertView.post` on the database. */
  method EntryRevertView(db: Database, u: Actor, entryId: int, version: int) returns (resp: Response)
    requires db.Valid()
    modifies db
    ensures db.Valid()
    ensures Outcome(resp, db.State()) == RevertView(old(db.State()), u, entryId, version)
  {
    var found := FindEntry(db.entries, entryId);
    if found.None? {
      return NotFound(ObjectNotFound);
    }
    var i := found.value;
    var entry := db.entries[i];
    if !HasObjectPermission(u, entry) {
      return Forbidden(PermissionDenied);
    }
    var newVersion := RevertEntryToVersion(db, i, version, Some(u.id));
    if newVersion.None? {
      return NotFound("version not found");
    }
    resp := RevertDone(entry.id, newVersion.value, version);
  }

  /* ---- CareNoteView.get ---- */

  /** `CareNoteView.get`: the patient's highlights and timeline as the access filters scope them. */
  function CareNoteView(t: Tables, u: Actor, patientId: int): Response
  {
    match FindPatient(t.patients, patientId)
    case None => NotFound(ObjectNotFound)
    case Some(p) =>
      match FilterPatientQueryset(u, p, t.entries)
      case Denied(reason) => Forbidden(reason)
      case Granted(timeline) => CareNote(p.id, p.displayName, FilterHighlightsQueryset(u, p, t.highlights), timeline)
  }

  /**
   * The care note is refused across clinics and to a patient-role user
   * asking for another patient, and granted otherwise. A patient-role user
   * asking for themself gets exactly their session summaries and accepted
   * highlights, every other role all of the patient's entries and
   * highlights, both lists newest first.
   */
  lemma CareNoteScope(t: Tables, u: Actor, p: Patient)
    requires FindPatient(t.patients, p.id) == Some(p)
    ensures var r := CareNoteView(t, u, p.id);
            && (CrossClinic(u, p) ==> r == Forbidden("Cross-clinic access denied"))
            && (!CrossClinic(u, p) && u.role == RolePatient && u.patientId != Some(p.id) ==>
                  r == Forbidden("Patient can only access self"))
            && (r.CareNote? <==> !CrossClinic(u, p) && (u.role != RolePatient || u.patientId == Some(p.id)))
            && (r.CareNote? ==> r.patientId == p.id && r.displayName == p.displayName)
            && (r.CareNote? && u.role == RolePatient ==>
                  && (forall e :: e in r.timeline <==>
                        e in t.entries && e.patientId == p.id && e.entryType == AiPatientSessionSummary)
                  && (forall h :: h in r.highlights <==>
                        h in t.highlights && h.patientId == p.id && h.status == Accepted))
            && (r.CareNote? && u.role != RolePatient ==>
                  && (forall e :: e in r.timeline <==> e in t.entries && e.patientId == p.id)
                  && (forall h :: h in r.highlights <==> h in t.highlights && h.patientId == p.id))
            && (r.CareNote? && Ascending(EntryKey, t.entries) ==> Descending(EntryKey, r.timeline))
            && (r.CareNote? && Ascending(HighlightKey, t.highlights) ==> Descending(HighlightKey, r.highlights))
  {
  }

  /* ---- GenerateHighlightsView.post ---- */

  /** The highlights `Highlight.objects.filter(patient=patient).delete()` keeps: those of other patients. */
  function NotOfPatient(pid: Id): Highlight -> bool
  {
    (h: Highlight) => h.patientId != pid
  }

  /** The tables once every highlight of the patient is deleted. */
  function HighlightsCleared(t: Tables, pid: Id): Tables
  {
    t.(highlights := Filter(NotOfPatient(pid), t.highlights))
  }

  /**
   * `GenerateHighlightsView.post`: a patient-role user is refused first, then
   * a missing patient is not found, then a cross-clinic user is refused;
   * otherwise the patient's highlights are deleted and the generator runs.
   */
  function GenerateView(t: Tables, u: Actor, patientId: int): Outcome
  {
    if u.role == RolePatient then Outcome(Forbidden("patient cannot generate highlights"), t)
    else match FindPatient(t.patients, patientId)
      case None => Outcome(NotFound(ObjectNotFound), t)
      case Some(p) =>
        if CrossClinic(u, p) then Outcome(Forbidden("Cross-clinic access denied"), t)
        else
          var cleared := HighlightsCleared(t, p.id);
          var hs := RuleCreated(cleared, p.id, Some(u.id));
          Outcome(HighlightsGenerated(|hs|, hs), RuleGenerated(cleared, p.id, Some(u.id)))
  }

  /**
   * Regeneration is refused, with nothing deleted, to a patient-role user
   * and across clinics. Otherwise it answers the generator's highlights (at
   * most one), after which the patient's highlights are exactly those, the
   * other patients' highlights are kept, and one `generate_highlights_rule`
   * record is appended.
   */
  lemma GenerateViewOutcome(t: Tables, u: Actor, p: Patient)
    requires FindPatient(t.patients, p.id) == Some(p)
    ensures var o := GenerateView(t, u, p.id);
            var c := RuleCreated(t, p.id, Some(u.id));
            && (o.response.Forbidden? <==> u.role == RolePatient || CrossClinic(u, p))
            && (o.response.Forbidden? ==> o.after == t)
            && (!o.response.Forbidden? ==>
                  && o.response == HighlightsGenerated(|c|, c)
                  && |c| <= 1
                  && (forall h :: h in o.after.highlights && h.patientId == p.id <==> h in c)
                  && (forall h :: h in o.after.highlights && h.patientId != p.id <==> h in t.highlights && h.patientId != p.id)
                  && o.after.audit == t.audit + [AuditRecord(p.id, Some(u.id), GenerateHighlightsRule(|c|))]
                  && o.after.entries == t.entries && o.after.snapshots == t.snapshots)
  {
    var cleared := HighlightsCleared(t, p.id);
    assert RuleCreated(cleared, p.id, Some(u.id)) == RuleCreated(t, p.id, Some(u.id));
  }

  /** Deleting highlights keeps the tables well formed. */
  lemma ClearKeepsWf(t: Tables, keep: Highlight -> bool, r: Tables)
    requires Wf(t) && r == t.(highlights := Filter(keep, t.highlights))
    ensures Wf(r)
  {
    FilterAscending(HighlightKey, keep, t.highlights);
  }

  /** The regeneration view keeps the tables well formed. */
  lemma GenerateViewKeepsWf(t: Tables, u: Actor, patientId: int)
    requires Wf(t)
    ensures Wf(GenerateView(t, u, patientId).after)
  {
    if u.role != RolePatient && FindPatient(t.patients, patientId).Some? {
      var p := FindPatient(t.patients, patientId).value;
      if !CrossClinic(u, p) {
        var cleared := HighlightsCleared(t, p.id);
        ClearKeepsWf(t, NotOfPatient(p.id), cleared);
        GenerateKeepsWf(cleared, p.id, Some(u.id));
      }
    }
  }

  /** `GenerateHighlightsView.post` on the database. */
  method GenerateHighlightsView(db: Database, u: Actor, patientId: int) returns (resp: Response)
    requires db.Valid()
    modifies db
    ensures db.Valid()
    ensures Outcome(resp, db.State()) == GenerateView(old(db.State()), u, patientId)
  {
    if u.role == RolePatient {
      return Forbidden("patient cannot generate highlights");
    }
    var found := FindPatient(db.patients, patientId);
    if found.None? {
      return NotFound(ObjectNotFound);
    }
    var p := found.value;
    if CrossClinic(u, p) {
      return Forbidden("Cross-clinic access denied");
    }
    ghost var t := db.State();
    db.highlights := Filter(NotOfPatient(p.id), db.highlights);
    ClearKeepsWf(t, NotOfPatient(p.id), db.State());
    var hs := GenerateRuleBasedHighlights(db, p.id, Some(u.id));
    resp := HighlightsGenerated(|hs|, hs);
  }

  /* ---- HighlightStatusView.post ---- */

  /** `request.data.get("status")` read as one of the three statuses; None for anything else. */
  function ParseStatus(v: BodyValue): (r: Option<HighlightStatus>)
    ensures r.Some? ==> v == Str(StatusName(r.value))
    ensures r.None? ==> forall s: HighlightStatus :: v != Str(StatusName(s))
  {
    if v == Str("suggested") then Some(Suggested)
    else if v == Str("accepted") then Some(Accepted)
    else if v == Str("rejected") then Some(Rejected)
    else None
  }

  /** The tables after highlight `i` is set to `status`, with the `set_highlight_status` record. */
  function StatusChanged(t: Tables, i: nat, status: HighlightStatus, actor: Option<Id>): Tables
    requires i < |t.highlights|
  {
    var h := t.highlights[i];
    t.(highlights := t.highlights[i := h.(status := status)],
       audit := t.audit + [AuditRecord(h.patientId, actor, SetHighlightStatus(h.id, h.status, status))])
  }

  /**
   * `HighlightStatusView.post`: a patient-role user is refused first, then a
   * missing highlight is not found, then a cross-clinic user and any user who
   * is neither clinician nor admin are refused, then a status outside the
   * three is a bad request; otherwise the status is set and logged. Every
   * highlight's patient exists, as the foreign key guarantees.
   */
  function StatusView(t: Tables, u: Actor, highlightId: int, status: BodyValue): Outcome
    requires OwnersExist(t.highlights, t.patients)
  {
    if u.role == RolePatient then Outcome(Forbidden("patient cannot change highlight status"), t)
    else match FindHighlight(t.highlights, highlightId)
      case None => Outcome(NotFound(ObjectNotFound), t)
      case Some(i) =>
        var h := t.highlights[i];
        var p := FindPatient(t.patients, h.patientId).value;
        if CrossClinic(u, p) then Outcome(Forbidden("Cross-clinic access denied"), t)
        else if u.role !in {RoleClinician, RoleAdmin} then Outcome(Forbidden("Only clinician/admin can approve/reject"), t)
        else match ParseStatus(status)
          case None => Outcome(BadRequest("status must be suggested/accepted/rejected"), t)
          case Some(s) => Outcome(StatusSet(h.id, s), StatusChanged(t, i, s, Some(u.id)))
  }

  /**
   * For the highlight at position `i` of a patient `p`: the request is refused
   * exactly to patient-role users, across clinics and to staff, is a bad
   * request exactly when, past those checks, the status is not one of the
   * three names, and every refusal changes nothing. Otherwise only that
   * highlight's status changes, to the requested one, and one
   * `set_highlight_status` record `{highlight_id, from: old, to: new}` is
   * appended.
   */
  lemma StatusViewOutcome(t: Tables, u: Actor, i: nat, p: Patient, status: BodyValue)
    requires Wf(t) && i < |t.highlights| && FindPatient(t.patients, t.highlights[i].patientId) == Some(p)
    ensures var h := t.highlights[i];
            var o := StatusView(t, u, h.id, status);
            var allowed := u.role in {RoleClinician, RoleAdmin} && !CrossClinic(u, p);
            && (o.response.Forbidden? <==> !allowed)
            && (o.response.BadRequest? <==> allowed && ParseStatus(status).None?)
            && (!o.response.StatusSet? ==> o.after == t)
            && (o.response.StatusSet? ==>
                  && status == Str(StatusName(o.response.status))
                  && o.response.highlightId == h.id
                  && |o.after.highlights| == |t.highlights|
                  && o.after.highlights[i] == h.(status := o.response.status)
                  && (forall j :: 0 <= j < |t.highlights| && j != i ==> o.after.highlights[j] == t.highlights[j])
                  && o.after.audit == t.audit + [AuditRecord(p.id, Some(u.id), SetHighlightStatus(h.id, h.status, o.response.status))]
                  && o.after.entries == t.entries && o.after.snapshots == t.snapshots && o.after.patients == t.patients)
  {
    HighlightIdsUnique(t, i);
  }

  /** On well-formed tables the highlight found by an id is the one at its position. */
  lemma HighlightIdsUnique(t: Tables, i: nat)
    requires Ascending(HighlightKey, t.highlights) && i < |t.highlights|
    ensures FindHighlight(t.highlights, t.highlights[i].id) == Some(i)
  {
    assert forall j :: 0 <= j < |t.highlights| && j != i ==> HighlightKey(t.highlights[j]) != HighlightKey(t.highlights[i]);
  }

  /** The status view keeps the tables well formed. */
  lemma StatusViewKeepsWf(t: Tables, u: Actor, highlightId: int, status: BodyValue)
    requires Wf(t)
    ensures Wf(StatusView(t, u, highlightId, status).after)
  {
    var o := StatusView(t, u, highlightId, status);
    if o.response.StatusSet? {
      var i := FindHighlight(t.highlights, highlightId).value;
      var r := o.after.highlights;
      assert forall k :: 0 <= k < |r| ==> r[k].id == t.highlights[k].id && r[k].patientId == t.highlights[k].patientId;
      assert Ascending(HighlightKey, r);
    }
  }

  /** `HighlightStatusView.post` on the database. */
  method HighlightStatusView(db: Database, u: Actor, highlightId: int, status: BodyValue) returns (resp: Response)
    requires db.Valid()
    modifies db
    ensures db.Valid()
    ensures Outcome(resp, db.State()) == StatusView(old(db.State()), u, highlightId, status)
  {
    ghost var t := db.State();
    if u.role == RolePatient {
      return Forbidden("patient cannot change highlight status");
    }
    var found := FindHighlight(db.highlights, highlightId);
    if found.None? {
      return NotFound(ObjectNotFound);
    }
    var i := found.value;
    var h := db.highlights[i];
    var p := FindPatient(db.patients, h.patientId).value;
    if CrossClinic(u, p) {
      return Forbidden("Cross-clinic access denied");
    }
    if u.role !in {RoleClinician, RoleAdmin} {
      return Forbidden("Only clinician/admin can approve/reject");
    }
    var newStatus := ParseStatus(status);
    if newStatus.None? {
      return BadRequest("status must be suggested/accepted/rejected");
    }
    var previous := h.status;
    db.highlights := db.highlights[i := h.(status := newStatus.value)];
    db.audit := db.audit + [AuditRecord(p.id, Some(u.id), SetHighlightStatus(h.id, previous, newStatus.value))];
    resp := StatusSet(h.id, newStatus.value);
    assert db.State() == StatusChanged(t, i, newStatus.value, Some(u.id));
    StatusViewKeepsWf(t, u, highlightId, status);
  }

  /* ---- GenerateMockPatientSummaryView.post ---- */

  /** One of the patient's session summaries: the entries a new summary replaces. */
  predicate IsSessionSummaryOf(e: Entry, pid: Id)
  {
    e.patientId == pid && e.entryType == AiPatientSessionSummary
  }

  /** `id` names one of the patient's session summaries. */
  predicate IsSummaryId(entries: seq<Entry>, pid: Id, id: Id)
  {
    exists e :: e in entries && e.id == id && IsSessionSummaryOf(e, pid)
  }

  function EntryKept(pid: Id): Entry -> bool
  {
    (e: Entry) => !IsSessionSummaryOf(e, pid)
  }

  function SnapshotKept(entries: seq<Entry>, pid: Id): Snapshot -> bool
  {
    (s: Snapshot) => !IsSummaryId(entries, pid, s.entryId)
  }

  function HighlightKept(entries: seq<Entry>, pid: Id): Highlight -> bool
  {
    (h: Highlight) => !IsSummaryId(entries, pid, h.entryId)
  }

  /**
   * `Entry.objects.filter(patient=patient, type="ai_patient_session_summary").delete()`:
   * the deletion cascades to the snapshots and the highlights of those entries.
   */
  function SummariesDeleted(t: Tables, pid: Id): Tables
  {
    t.(entries := Filter(EntryKept(pid), t.entries),
       snapshots := Filter(SnapshotKept(t.entries, pid), t.snapshots),
       highlights := Filter(HighlightKept(t.entries, pid), t.highlights))
  }

  /** How many entries the summary draws on. */
  const RecentLimit: nat := 5

  /** How much of each entry's content its bullet quotes. */
  const BulletCap: nat := 80

  /** The prefix of a system-generated provenance pointer. */
  const SessionPrefix := "session:"

  /** The entries a summary may draw on: the patient's, other than session summaries. */
  function SummarySource(pid: Id): Entry -> bool
  {
    (e: Entry) => e.patientId == pid && e.entryType != AiPatientSessionSummary
  }

  /** `recent`: the patient's newest entries other than session summaries, at most 5, newest first. */
  function Recent(entries: seq<Entry>, pid: Id): (r: seq<Entry>)
    ensures |r| <= RecentLimit
    ensures forall e :: e in r ==> e in entries && e.patientId == pid && e.entryType != AiPatientSessionSummary
  {
    NewestFirstMembers(SummarySource(pid), entries);
    Prefix(Reverse(Filter(SummarySource(pid), entries)), RecentLimit)
  }

  /** `f"- ({e.type}) {e.content[:80]}"`. */
  function BulletLine(e: Entry): string
  {
    "- (" + TypeName(e.entryType) + ") " + Prefix(e.content, BulletCap)
  }

  /** The bullets of the summary: one per recent entry, the oldest (the last of `recent`) first. */
  function Bullets(recent: seq<Entry>): seq<string>
  {
    MapReversed(BulletLine, recent)
  }

  /** Bullet `j` quotes the entry `j` places from the end of `recent`: the bullets run oldest first. */
  lemma BulletsOldestFirst(recent: seq<Entry>)
    ensures |Bullets(recent)| == |recent|
    ensures forall j :: 0 <= j < |recent| ==> Bullets(recent)[j] == BulletLine(recent[|recent| - 1 - j])
  {
    MapReversedAt(BulletLine, recent);
  }

  /** The fixed text before the bullets. */
  const SummaryHead := "Patient Summary (Mock AI)\nWhat happened:\n"

  /** The fixed text after the bullets. */
  const SummaryTail := "\n\nNext steps:\n- Monitor symptoms\n- Follow clinician advice\n"

  /** The text of the mock summary: its bullets, one per line, between the fixed head and tail. */
  function SummaryText(bullets: seq<string>): string
  {
    SummaryHead + Join("\n", bullets) + SummaryTail
  }

  /** The summary entry: system-authored, of type `ai_patient_session_summary`, with a `session:` pointer. */
  function SummaryEntry(id: Id, pid: Id, hex: string, content: string): Entry
  {
    Entry(id, pid, None, BySystem, AiPatientSessionSummary, SessionPrefix + hex, content)
  }

  /**
   * The tables after a summary is generated for patient `pid`, `hex` being
   * the random hexadecimal id of the session: the old summaries deleted, the
   * new one created from the remaining recent entries, and one
   * `generate_patient_summary_mock` record.
   */
  function MockSummarized(t: Tables, pid: Id, actor: Option<Id>, hex: string): Tables
  {
    var d := SummariesDeleted(t, pid);
    var e := SummaryEntry(d.nextEntryId, pid, hex, SummaryText(Bullets(Recent(d.entries, pid))));
    d.(entries := d.entries + [e],
       nextEntryId := d.nextEntryId + 1,
       audit := d.audit + [AuditRecord(pid, actor, GeneratePatientSummaryMock(e.id))])
  }

  /**
   * `GenerateMockPatientSummaryView.post`: a patient-role user is refused
   * first, then a missing patient is not found, then a cross-clinic user is
   * refused; otherwise the summary is generated.
   */
  function MockSummaryView(t: Tables, u: Actor, patientId: int, hex: string): Outcome
  {
    if u.role == RolePatient then Outcome(Forbidden("patient cannot generate AI notes"), t)
    else match FindPatient(t.patients, patientId)
      case None => Outcome(NotFound(ObjectNotFound), t)
      case Some(p) =>
        if CrossClinic(u, p) then Outcome(Forbidden("Cross-clinic access denied"), t)
        else Outcome(SummaryCreated(t.nextEntryId, SessionPrefix + hex), MockSummarized(t, p.id, Some(u.id), hex))
  }

  /**
   * The summary is refused, with nothing deleted, to a patient-role user and
   * across clinics; otherwise it answers the new entry's id and pointer, the
   * pointer starting with `session:`.
   */
  lemma MockSummaryGates(t: Tables, u: Actor, p: Patient, hex: string)
    requires FindPatient(t.patients, p.id) == Some(p)
    ensures var o := MockSummaryView(t, u, p.id, hex);
            && (o.response.Forbidden? <==> u.role == RolePatient || CrossClinic(u, p))
            && (o.response.Forbidden? ==> o.after == t)
            && (!o.response.Forbidden? ==>
                  && o.response.SummaryCreated?
                  && o.response.entryId == t.nextEntryId
                  && SessionPrefix <= o.response.provenance
                  && o.after == MockSummarized(t, p.id, Some(u.id), hex))
  {
  }

  /**
   * After a summary for patient `pid`, the patient's old session summaries
   * are gone, every other entry is kept, and exactly one session summary of
   * the patient remains: the new system-authored, authorless entry with the
   * next entry id, a `session:` pointer and content built from the recent
   * entries. One `generate_patient_summary_mock` record `{entry_id}` is
   * appended.
   */
  lemma MockSummaryEntries(t: Tables, pid: Id, actor: Option<Id>, hex: string, r: Tables)
    requires r == MockSummarized(t, pid, actor, hex)
    ensures |r.entries| > 0
    ensures var s := r.entries[|r.entries| - 1];
            && s.id == t.nextEntryId && s.patientId == pid && s.author == None
            && s.authorRole == BySystem && s.entryType == AiPatientSessionSummary
            && s.provenance == SessionPrefix + hex
            && s.content == SummaryText(Bullets(Recent(t.entries, pid)))
            && (forall e :: e in r.entries && IsSessionSummaryOf(e, pid) ==> e == s)
            && (forall e :: e in r.entries ==> e == s || (e in t.entries && !IsSessionSummaryOf(e, pid)))
            && (forall e :: e in t.entries && !IsSessionSummaryOf(e, pid) ==> e in r.entries)
    ensures r.audit == t.audit + [AuditRecord(pid, actor, GeneratePatientSummaryMock(t.nextEntryId))]
    ensures r.nextEntryId == t.nextEntryId + 1
  {
    var kept := Filter(EntryKept(pid), t.entries);
    RecentAfterDeletion(t.entries, pid);
    var s := r.entries[|r.entries| - 1];
    assert r.entries == kept + [s];
  }

  /** The deletion cascades: the snapshots and highlights of the deleted summaries go, all others stay. */
  lemma MockSummaryCascade(t: Tables, pid: Id, actor: Option<Id>, hex: string, r: Tables)
    requires r == MockSummarized(t, pid, actor, hex)
    ensures forall x :: x in r.snapshots <==> x in t.snapshots && !IsSummaryId(t.entries, pid, x.entryId)
    ensures forall h :: h in r.highlights <==> h in t.highlights && !IsSummaryId(t.entries, pid, h.entryId)
  {
  }

  /** Deleting the session summaries does not change the recent entries the summary draws on. */
  lemma RecentAfterDeletion(entries: seq<Entry>, pid: Id)
    ensures Recent(Filter(EntryKept(pid), entries), pid) == Recent(entries, pid)
  {
    FilterOfFilter(SummarySource(pid), EntryKept(pid), entries);
  }

  /**
   * The recent entries are the newest ones: they descend by creation (so the
   * bullets, built from them reversed, run oldest first), and an eligible
   * entry left out means there are 5 of them, all newer.
   */
  lemma RecentAreNewest(entries: seq<Entry>, pid: Id, e: Entry)
    requires Ascending(EntryKey, entries)
    ensures Descending(EntryKey, Recent(entries, pid))
    ensures Ascending(EntryKey, Reverse(Recent(entries, pid)))
    ensures e in entries && e.patientId == pid && e.entryType != AiPatientSessionSummary && e !in Recent(entries, pid) ==>
              |Recent(entries, pid)| == RecentLimit && forall k :: 0 <= k < RecentLimit ==> Recent(entries, pid)[k].id > e.id
  {
    var all := Reverse(Filter(SummarySource(pid), entries));
    NewestFirstOrder(EntryKey, SummarySource(pid), entries);
    PrefixDescending(EntryKey, all, RecentLimit);
    if e in entries && e.patientId == pid && e.entryType != AiPatientSessionSummary && e !in Recent(entries, pid) {
      NewestFirstTop(EntryKey, SummarySource(pid), entries, e, RecentLimit);
    }
  }

  /** The summary text holds the bullet of every recent entry. */
  lemma SummaryHoldsBullets(recent: seq<Entry>, j: nat)
    requires j < |recent|
    ensures Contains(SummaryText(Bullets(recent)), BulletLine(recent[j]))
  {
    var b := Bullets(recent);
    var k := |recent| - 1 - j;
    BulletsOldestFirst(recent);
    var line := b[k];
    assert line == BulletLine(recent[j]);
    JoinContainsPart("\n", b, k);
    ContainsInside(SummaryHead, Join("\n", b), SummaryTail, line);
  }

  /** Deleting the patient's session summaries, with what cascades, keeps the tables well formed. */
  lemma DeleteSummariesKeepsWf(t: Tables, pid: Id, d: Tables)
    requires Wf(t) && d == SummariesDeleted(t, pid)
    ensures Wf(d)
  {
    FilterAscending(EntryKey, EntryKept(pid), t.entries);
    FilterAscending(HighlightKey, HighlightKept(t.entries, pid), t.highlights);
    forall i | 0 <= i < |d.entries| ensures Consistent(d.entries[i], d.snapshots) {
      KeptEntryConsistent(t, pid, d.entries[i]);
    }
  }

  /** An entry that is not one of the deleted summaries keeps its whole history, and so stays consistent. */
  lemma KeptEntryConsistent(t: Tables, pid: Id, e: Entry)
    requires Wf(t) && e in t.entries && !IsSessionSummaryOf(e, pid)
    ensures Consistent(e, Filter(SnapshotKept(t.entries, pid), t.snapshots))
  {
    var j :| 0 <= j < |t.entries| && t.entries[j] == e;
    assert Consistent(t.entries[j], t.snapshots);
    assert !IsSummaryId(t.entries, pid, e.id) by {
      forall e' | e' in t.entries && e'.id == e.id ensures e' == e {
        var j' :| 0 <= j' < |t.entries| && t.entries[j'] == e';
        assert !(EntryKey(t.entries[j]) < EntryKey(t.entries[j'])) && !(EntryKey(t.entries[j']) < EntryKey(t.entries[j]));
      }
    }
    HistoryOfFilter(SnapshotKept(t.entries, pid), t.snapshots, e.id);
  }

  /** Creating an entry with the next entry id, and logging one record, keeps the tables well formed. */
  lemma CreateEntryKeepsWf(d: Tables, e: Entry, rec: AuditRecord, r: Tables)
    requires Wf(d) && e.id == d.nextEntryId
    requires r == d.(entries := d.entries + [e], nextEntryId := d.nextEntryId + 1, audit := d.audit + [rec])
    ensures Wf(r)
  {
    NoSnapshotsEmptyHistory(d.snapshots, e.id);
    assert forall i :: 0 <= i < |d.entries| ==> r.entries[i] == d.entries[i];
  }

  /** The mock summary view keeps the tables well formed. */
  lemma MockSummaryViewKeepsWf(t: Tables, u: Actor, patientId: int, hex: string)
    requires Wf(t)
    ensures Wf(MockSummaryView(t, u, patientId, hex).after)
  {
    if u.role != RolePatient && FindPatient(t.patients, patientId).Some? {
      var p := FindPatient(t.patients, patientId).value;
      if !CrossClinic(u, p) {
        var d := SummariesDeleted(t, p.id);
        DeleteSummariesKeepsWf(t, p.id, d);
        var e := SummaryEntry(d.nextEntryId, p.id, hex, SummaryText(Bullets(Recent(d.entries, p.id))));
        CreateEntryKeepsWf(d, e, AuditRecord(p.id, Some(u.id), GeneratePatientSummaryMock(e.id)),
                           MockSummarized(t, p.id, Some(u.id), hex));
      }
    }
  }

  /** The loop `for e in reversed(list(recent)): bullets.append(...)`. */
  method BuildBullets(recent: seq<Entry>) returns (bullets: seq<string>)
    ensures bullets == Bullets(recent)
  {
    bullets := [];
    var k := |recent|;
    while k > 0
      invariant 0 <= k <= |recent|
      invariant bullets == MapReversed(BulletLine, recent[k..])
    {
      k := k - 1;
      assert recent[k..][1..] == recent[k + 1..];
      bullets := bullets + [BulletLine(recent[k])];
      assert bullets == MapReversed(BulletLine, recent[k..]);
    }
  }

  /** Deletes the patient's session summaries, with their snapshots and highlights. */
  method DeleteSummaries(db: Database, pid: Id)
    requires db.Valid()
    modifies db
    ensures db.Valid()
    ensures db.State() == SummariesDeleted(old(db.State()), pid)
  {
    ghost var t := db.State();
    var before := db.entries;
    db.entries := Filter(EntryKept(pid), db.entries);
    db.snapshots := Filter(SnapshotKept(before, pid), db.snapshots);
    db.highlights := Filter(HighlightKept(before, pid), db.highlights);
    DeleteSummariesKeepsWf(t, pid, db.State());
  }

  /** `GenerateMockPatientSummaryView.post` on the database; `hex` stands for `uuid.uuid4().hex`. */
  method GenerateMockPatientSummaryView(db: Database, u: Actor, patientId: int, hex: string) returns (resp: Response)
    requires db.Valid()
    modifies db
    ensures db.Valid()
    ensures Outcome(resp, db.State()) == MockSummaryView(old(db.State()), u, patientId, hex)
  {
    ghost var t := db.State();
    if u.role == RolePatient {
      return Forbidden("patient cannot generate AI notes");
    }
    var found := FindPatient(db.patients, patientId);
    if found.None? {
      return NotFound(ObjectNotFound);
    }
    var p := found.value;
    if CrossClinic(u, p) {
      return Forbidden("Cross-clinic access denied");
    }
    DeleteSummaries(db, p.id);
    ghost var d := db.State();
    var recent := Recent(db.entries, p.id);
    var bullets := BuildBullets(recent);
    var summary := SummaryText(bullets);
    var prov := SessionPrefix + hex;
    var e := Entry(db.nextEntryId, p.id, None, BySystem, AiPatientSessionSummary, prov, summary);
    db.entries := db.entries + [e];
    db.nextEntryId := db.nextEntryId + 1;
    db.audit := db.audit + [AuditRecord(p.id, Some(u.id), GeneratePatientSummaryMock(e.id))];
    resp := SummaryCreated(e.id, prov);
    assert e == SummaryEntry(d.nextEntryId, p.id, hex, SummaryText(Bullets(Recent(d.entries, p.id))));
    assert db.State() == MockSummarized(t, p.id, Some(u.id), hex);
    CreateEntryKeepsWf(d, e, AuditRecord(p.id, Some(u.id), GeneratePatientSummaryMock(e.id)), db.State());
  }
}
