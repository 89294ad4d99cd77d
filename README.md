# Clinical notes core, modelled in Dafny

This project models the rule engines of the `notes` app of a small clinical
note service:

- the **versioned record store** (`notes/editing.py`): the current version of an
  entry, editing it (a new snapshot at `cur+1`, the live content overwritten, an
  `edit_entry` audit record) and reverting it (an old snapshot's content copied
  forward as a new top version, with a `revert_entry` record);
- the **access scoping** rules (`notes/rbac.py`, `notes/permissions.py`): the
  clinic check, the patient-self check, the type and status filters, and the
  enumerated object-level edit rule over (role, author role, entry type);
- the **rule-based highlight generator** (`notes/highlights.py`): the scan of the
  20 newest non-`ai_` entries against the ordered risk keyword table, the cap of
  one highlight per run, the highlight text and span, and the audit record;
- the **API views** (`notes/views.py`) that chain these together: the check
  order of the edit view with its `If-Match` compare-and-swap, the version list,
  revert, highlight regeneration, highlight status changes and the mock patient
  summary.

## Layout

| file | module | what it holds |
|---|---|---|
| `util.dfy` | `Util` | `Option`, and the query-set operations: filter, newest first (reverse), `[:n]`, map |
| `text.dfy` | `Text` | the Python string operations used: `strip`, ASCII `lower`, `in`, `int()`, `str()`, `join` |
| `models.dfy` | `Models` | the records and closed choice sets, an entry's history, the table invariant `Wf`, class `Database` |
| `permissions.dfy` | `Permissions` | `CanEditEntry.has_object_permission` |
| `rbac.dfy` | `Rbac` | `filter_patient_queryset`, `filter_highlights_queryset` |
| `editing.dfy` | `Editing` | `get_latest_version`, edit and revert, as functions on the tables and as methods on `Database` |
| `highlights.dfy` | `Highlights` | `RISK_KEYWORDS` and `generate_rule_based_highlights` |
| `views.dfy` | `Views` | the seven API views |

The database is the class `Models.Database`, with one `seq` field per table
(patients, entries, snapshots, highlights, audit log) and the next id to hand
out for entries and highlights. Each operation that changes the database is a
method with `modifies db`. Its postcondition ties the new tables to a pure
transition function of the old tables (`Edited`, `Reverted`, `RuleGenerated`,
`EditView`, `GenerateView`, `StatusView`, `MockSummaryView`, ...). The
properties are lemmas about those functions. `Models.Wf` is the invariant of the
tables:

- ids ascend in creation order;
- every id lies below the next id to hand out;
- every highlight's patient exists;
- every snapshot belongs to an entry id already handed out;
- every entry's versions run 1, 2, ..., n with no gaps, and its live content is
  the content of version n.

Every state-changing view has a `...KeepsWf` lemma, and every method that
changes the database requires `db.Valid()` (that is, `Wf` of its tables) and
ensures it again. A view's outcome is a
`Views.Response` (one constructor per JSON shape and per 400/403/404/409
refusal) together with the tables after the request.

Rows are kept in id order, so "newest first by `created_at`" is the table
order reversed. Python's `int()` is modelled for base-10 text, with a sign
and single underscores between digits, and with CPython's default limit of
4300 digits (`sys.int_info.default_max_str_digits`), beyond which it raises
`ValueError`. The two whitespace sets differ:

- `str.strip()` removes the characters of `str.isspace()` (`Text.IsSpace`).
- `int()` skips only the ASCII whitespace `\t\n\v\f\r` and space, plus the
  non-ASCII characters of that set (`Text.IntSpace`). The separators
  U+001C..U+001F therefore make a numeral invalid.

## Model

| member | source | states |
|---|---|---|
| `Editing.LatestVersionIsMax` | notes/editing.py:5-7 | the current version is at least every snapshot version of the entry, is one of them, and is 0 when the entry has no snapshot |
| `Editing.LatestIsHistoryLength` | notes/editing.py:5-7 | with versions 1..n the current version is n |
| `Editing.CurrentVersion` | notes/editing.py:5-7 | on well-formed tables an entry's current version is the number of its snapshots |
| `Models.HistorySound` | notes/editing.py:6 | an entry's history is the snapshot table filtered to that entry: each of its snapshots, as often as in the table, in table order |
| `Editing.WriteNextVersionHistory` | notes/editing.py:12-18 | writing version n+1 appends exactly that snapshot to the entry's history and leaves every other entry's history alone |
| `Editing.SnapshotAndUpdateEntry` | notes/editing.py:9-29 | the database after an edit is `Edited` of the one before, and the result is the old current version plus one |
| `Editing.EditHistory` | notes/editing.py:12-18 | an edit appends exactly the snapshot (n+1, new content, actor) to that entry's history and changes no other entry's history |
| `Editing.EditVersion` | notes/editing.py:12-18 | after an edit of an entry with n snapshots its current version is n+1 |
| `Editing.EditFrame` | notes/editing.py:19-28 | an edit sets that entry's live content to the new content and leaves every other entry alone; it appends one `edit_entry` record `{entry_id, new_version: n+1}` for the entry's patient; it changes no patient, highlight or id counter |
| `Editing.EditKeepsWf` | notes/editing.py:9-29 | an edit keeps the versions contiguous and the live content equal to the top snapshot |
| `Editing.RevertEntryToVersion` | notes/editing.py:31-55 | a missing target version returns None and leaves the database unchanged; otherwise the database becomes `Reverted` of the old one, and the result is the old current version plus one |
| `Editing.FindVersion` | notes/editing.py:33-35 | a found snapshot is in the history and has the requested version; nothing is found only when no snapshot has that version |
| `Editing.FindVersionContiguous` | notes/editing.py:33-35 | in a contiguous history version v is found exactly when 1 <= v <= n, and it sits at position v-1 |
| `Editing.RevertFound` | notes/editing.py:33-47 | a revert succeeds exactly when the target is one of 1..n; it is then the write of version n+1 holding the target's content |
| `Editing.RevertIsWrite` | notes/editing.py:37-55 | a successful revert is an edit that writes version n+1 with the target's content and a `revert_entry` record |
| `Editing.RevertHistory` | notes/editing.py:38-47 | a revert appends (n+1, target's content, actor) and keeps every earlier snapshot (the old table is a prefix, one longer); the current version becomes n+1 and the live content becomes the target's |
| `Editing.RevertFrame` | notes/editing.py:45-54 | a revert touches no other entry; it appends one `revert_entry` record `{entry_id, reverted_to, new_version: n+1}`; it changes no patient, highlight or id counter |
| `Editing.RevertKeepsWf` | notes/editing.py:31-55 | a revert keeps the tables well formed |
| `Editing.EditTwiceFresh` | notes/editing.py:9-29 | editing an entry with no snapshots to "v1" and then to "v2" gives versions 1 and 2 and exactly that history |
| `Editing.RevertToFirst` | notes/editing.py:31-55 | reverting the history v1, v2 to version 1 gives version 3 with "v1" live and on top |
| `Editing.EditEditRevertScenario` | notes/editing.py:9-55 | edit "v1", edit "v2", revert to 1: top version 3 and live content "v1" |
| `Permissions.EditRuleTable` | notes/permissions.py:4-12 | permission holds exactly for admin or a (role, author_role, type) triple among (staff, staff, staff_note) and (clinician, clinician, clinician_note) |
| `Permissions.AdminMayEditAnything` | notes/permissions.py:6-7 | an admin may edit every entry |
| `Permissions.StaffEditRule` | notes/permissions.py:8-9 | staff may edit exactly staff-authored `staff_note` entries |
| `Permissions.ClinicianEditRule` | notes/permissions.py:10-11 | a clinician may edit exactly clinician-authored `clinician_note` entries |
| `Permissions.PatientNeverEdits` | notes/permissions.py:12 | a patient-role user may edit nothing |
| `Permissions.MachineEntriesAdminOnly` | notes/permissions.py:8-12 | no non-admin may edit an `ai_*` entry, a `system_event` or a system-authored entry |
| `Permissions.DecidedByRoleAuthorRoleType` | notes/permissions.py:4-12 | two requests that agree on role, author role and type get the same answer: author identity and clinic are not consulted |
| `Models.AiTypes` | notes/models.py:21-28 | the types starting with `ai_` are exactly the three summary types |
| `Rbac.FilterPatientQueryset` | notes/rbac.py:4-21 | refused exactly across clinics, or for a patient-role user asking about another patient; a patient-role user gets exactly the patient's `ai_patient_session_summary` entries; every other role gets all of the patient's entries; results descend by creation |
| `Rbac.FilterHighlightsQueryset` | notes/rbac.py:24-29 | a patient-role user gets exactly the patient's accepted highlights, everyone else all of the patient's highlights, newest first |
| `Rbac.NewestFirstOf` | notes/rbac.py:16-21 | a filtered query holds exactly the rows of the table that pass, in descending creation order |
| `Rbac.PatientTimelineIsPatientFacing` | notes/rbac.py:11-18 | a patient viewing themself never sees staff or clinician notes and does see their session summaries |
| `Rbac.CrossClinicStaffDenied` | notes/rbac.py:6-8 | staff of clinic A asking about a patient of clinic B is refused |
| `Rbac.ClinicCheckExemptions` | notes/rbac.py:6-7 | admins and users without a clinic are never refused by the clinic check |
| `Rbac.PatientSeesOnlyAccepted` | notes/rbac.py:27-28 | a patient sees one of their highlights exactly when it is accepted |
| `Highlights.FirstKeyword` | notes/highlights.py:26-28 | the chosen keyword occurs in the lowered text and no earlier keyword of the table does; None exactly when no keyword occurs |
| `Highlights.FirstKeywordUnique` | notes/highlights.py:27-28 | the first-match description determines the winning keyword |
| `Highlights.ScanWindow` | notes/highlights.py:13-18 | at most 20 entries, all of the patient and none of an `ai_` type, newest first |
| `Highlights.WindowIsNewest` | notes/highlights.py:13-18 | an eligible entry outside the window means the window holds 20 entries, all newer |
| `Highlights.MakeHighlight` | notes/highlights.py:29-38 | a highlight is `suggested`, belongs to the patient, points at its entry, and has `0 == span_start <= span_end <= min(len(content), 120)` with `span_end` equal to `len(content)` or 120 |
| `Highlights.Build` | notes/highlights.py:29-39 | the k-th created highlight is numbered k past the first free id and is built from the k-th hit |
| `Highlights.RuleCreated` | notes/highlights.py:20-40 | one run creates at most one highlight, numbered from the next highlight id, of the patient, by the actor, `suggested`, with its span within 0..120 |
| `Highlights.CreatedFromWindow` | notes/highlights.py:23-38 | every created highlight points at an entry of the scanned window and its span lies within that entry's content |
| `Highlights.NoKeywordNoHighlight` | notes/highlights.py:23-40 | nothing is created exactly when no keyword occurs in the lowered content of any scanned entry |
| `Highlights.FirstMatchWins` | notes/highlights.py:23-40 | the first scanned entry containing a keyword yields the one highlight, with the first keyword of the table that occurs in it |
| `Highlights.GenerateFrame` | notes/highlights.py:42-48 | a run adds only its highlights and appends exactly one `generate_highlights_rule` record whose count is their number (0 or 1); no other table changes |
| `Highlights.GenerateKeepsWf` | notes/highlights.py:12-48 | a run keeps the tables well formed |
| `Highlights.ChestPainScenario` | notes/highlights.py:6 | when the newest scanned entry reads "Staff note: chest pain reported.", the run creates one highlight with reason "Potential cardiac symptom", text `chest pain: ` plus the content, span the whole content, pointing at that entry |
| `Highlights.ScanEntries` | notes/highlights.py:23-40 | the loop with its `break` creates exactly the highlights of the first hit of the scan |
| `Highlights.ScanFromBuilds` | notes/highlights.py:23-40 | resumed at any point it has reached, the loop ends with the highlights of the first hits of the whole scan |
| `Highlights.CreateFromWindow` | notes/highlights.py:23-40 | the scan stores exactly the highlights of the first hits, appended to the table, with the highlight counter advanced by their number; nothing else changes |
| `Highlights.GenerateRuleBasedHighlights` | notes/highlights.py:12-48 | returns `RuleCreated` and leaves the database at `RuleGenerated` |
| `Text.StripEmptyIffBlank` | notes/views.py:50 | `not s.strip()` holds exactly when every character is whitespace |
| `Text.ParseIntRoundTrip` | notes/views.py:58 | `int(str(n)) == n` for every n of at most 4300 digits (CPython's `str` raises beyond), so the numeral of the current version is accepted as `If-Match` |
| `Text.ParseIntTooManyDigits` | notes/views.py:57-60 | a numeral of more than 4300 digits makes `int()` raise `ValueError` |
| `Text.ParseIntSeparatorIsNotSpace` | notes/views.py:57-60 | `int(" 7\n")` is 7, but `int("0\x1f")` raises `ValueError` although `"0\x1f".strip()` is `"0"` |
| `Text.ContainsIff` | notes/highlights.py:28 | `kw in text` holds exactly when `kw` occurs at some position of `text` |
| `Text.Lower` | notes/highlights.py:26 | lowering keeps the length and lowers each character on its own |
| `Text.TrimStartSpec` | notes/views.py:50 | `lstrip` for a given whitespace set removes exactly the leading whitespace: what is left starts with a non-space or is empty |
| `Text.TrimEndSpec` | notes/views.py:50 | `rstrip` for a given whitespace set removes exactly the trailing whitespace: what is left ends with a non-space or is empty |
| `Models.FindByKey` | notes/views.py:44 | the primary-key lookup of entries (here and at lines 74 and 82) and of highlights (line 125) returns a position holding a row with the id, or nothing exactly when no row has it (404) |
| `Models.FindPatient` | notes/views.py:104 | the lookup returns a patient with the id, or nothing exactly when no patient has it (404) |
| `Views.EditCheckOrder` | notes/views.py:47-65 | each refusal of the edit view happens exactly when the checks before it pass and its own fails: permission, then non-blank string content, then a parseable `If-Match`, then the version match |
| `Views.EditRefusalsChangeNothing` | notes/views.py:43-65 | a missing entry is not found; every answer but a successful edit leaves the tables unchanged; a success had non-blank content |
| `Views.EditStaleIfMatch` | notes/views.py:55-65 | a parseable `If-Match` other than the current version n yields 409 carrying n, with nothing written |
| `Views.EditCurrentIfMatch` | notes/views.py:56-68 | with no `If-Match` or one equal to n, the edit goes through and answers n+1 |
| `Views.EditWithCurrentNumeral` | notes/views.py:54-68 | sending `str(n)` as `If-Match` lets the edit through, for every current version n of at most 4300 digits |
| `Views.EditOverlongIfMatch` | notes/views.py:54-60 | a permitted edit whose `If-Match` has more than 4300 digits is answered 400 "Invalid If-Match" and writes nothing |
| `Views.EditViewKeepsWf` | notes/views.py:43-68 | the edit view keeps the tables well formed |
| `Views.EntryEditView` | notes/views.py:43-68 | the method's response and new database are exactly `EditView` of the old database |
| `Views.VersionsDescending` | notes/views.py:73-76 | the version list holds exactly the entry's snapshots, numbered n down to 1, strictly descending |
| `Views.RevertViewOutcome` | notes/views.py:81-90 | a permitted revert is not found exactly when the target is not one of 1..n, and then changes nothing; otherwise it answers `{new_version: n+1, reverted_to}` and appends the target's content as version n+1 |
| `Views.RevertViewKeepsWf` | notes/views.py:81-90 | refusals of the revert view change nothing, and the view keeps the tables well formed |
| `Views.EntryRevertView` | notes/views.py:81-90 | the method's response and new database are exactly `RevertView` of the old database |
| `Views.CareNoteScope` | notes/views.py:16-32 | the care note is refused across clinics and to a patient asking about another patient, and granted exactly otherwise; a patient sees exactly their session summaries and accepted highlights; other roles see exactly all of the patient's entries and highlights; both lists are newest first |
| `Views.GenerateViewOutcome` | notes/views.py:100-114 | refused, with nothing deleted, exactly to patient-role and cross-clinic callers; otherwise answers the generated highlights (at most one), after which the patient's highlights are exactly those, other patients' highlights are kept, and one audit record is appended |
| `Views.GenerateViewKeepsWf` | notes/views.py:100-114 | regeneration keeps the tables well formed |
| `Views.GenerateHighlightsView` | notes/views.py:100-114 | the method's response and new database are exactly `GenerateView` of the old database |
| `Views.ParseStatus` | notes/views.py:134-136 | a status is accepted exactly when the body holds one of the three status names, which it then denotes |
| `Views.StatusViewOutcome` | notes/views.py:121-147 | refused (403) exactly to patient, staff and cross-clinic callers; a bad request (400) exactly when the status is not one of the three; every refusal changes nothing; on success only that highlight's status changes, and one `set_highlight_status` record `{highlight_id, from, to}` is appended |
| `Views.StatusViewKeepsWf` | notes/views.py:121-147 | the status view keeps the tables well formed |
| `Views.HighlightStatusView` | notes/views.py:121-149 | the method's response and new database are exactly `StatusView` of the old database |
| `Views.MockSummaryGates` | notes/views.py:156-162 | refused, with nothing deleted, exactly to patient-role and cross-clinic callers; otherwise answers the new entry id and a pointer starting with `session:` |
| `Views.MockSummaryEntries` | notes/views.py:165-192 | afterwards the patient's only session summary is the new system-authored, authorless entry with a `session:` pointer and the summary text; every other entry is kept; one `generate_patient_summary_mock` record `{entry_id}` is appended |
| `Views.MockSummaryCascade` | notes/views.py:165 | deleting the old summaries removes exactly their snapshots and highlights |
| `Views.DeleteSummaries` | notes/views.py:165 | the deletion leaves the database at `SummariesDeleted` of the old one: the patient's session summaries are gone, with their snapshots and highlights |
| `Views.Recent` | notes/views.py:166 | at most 5 entries, all of the patient and none a session summary |
| `Views.RecentAfterDeletion` | notes/views.py:165-166 | deleting the summaries first does not change which entries the summary draws on |
| `Views.RecentAreNewest` | notes/views.py:166-169 | the recent entries descend by creation (so the bullets run oldest first), and an eligible entry left out means 5 newer ones were taken |
| `Views.BulletsOldestFirst` | notes/views.py:168-170 | there is one bullet per recent entry, and bullet j quotes the entry j places from the end of `recent` |
| `Views.BuildBullets` | notes/views.py:168-170 | the loop over `reversed(recent)` builds exactly `Bullets(recent)` |
| `Views.SummaryHoldsBullets` | notes/views.py:172-176 | the summary text contains the bullet of every recent entry |
| `Views.MockSummaryViewKeepsWf` | notes/views.py:156-192 | the mock summary keeps the tables well formed |
| `Views.GenerateMockPatientSummaryView` | notes/views.py:156-193 | the method's response and new database are exactly `MockSummaryView` of the old database |

## Behaviour worth knowing

The model follows the code in these places:

- Deleting the old session summaries also deletes their version snapshots and
  highlights, because those foreign keys are declared with
  `on_delete=CASCADE` (notes/models.py:70, 78). So an entry's snapshot history
  is append-only only for as long as the entry exists.
- The version list (notes/views.py:73-76) checks no object permission and no
  clinic. `Views.VersionsView` takes no user.
- The status view refuses staff with 403 through its role check
  (notes/views.py:131-132).
- Regeneration replaces all of the patient's highlights, including accepted
  and rejected ones (notes/views.py:111).

## Left out

- HTTP plumbing: JWT authentication, serializers, routing and templates.
  The framework's 401 for unauthenticated requests is not modelled. The
  detail texts of the framework's own 403 and 404 are fixed strings.
- Transactions and concurrency. Each operation is one atomic step on the
  tables, so the race between the version read of the edit view and its write
  is not represented.
- Timestamps (`created_at`, `updated_at`). Creation order is id order, and
  `updated_at` is not stored.
- `uuid.uuid4()`: the hexadecimal session id is a parameter of the mock
  summary.
- `str.lower()` beyond ASCII letters, and `int()` on non-ASCII digits.
- `Views.ParseStatus`: a JSON list or object as `status` makes Python's set
  membership test raise a `TypeError` (a server error). The model answers 400
  for every non-string status.
- The audit code after the `return` in notes/highlights.py:50-56 never runs and
  is not modelled.
- `CommentThread` and `Comment` carry no logic and are not modelled.
- notes/serializers.py, notes/urls.py, notes/web_views.py and
  notes/web_urls.py hold no logic and are not part of this model.
