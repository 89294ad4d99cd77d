/**
 * The versioned record store: the current version of an entry, editing an
 * entry (a new snapshot at version cur+1, the live content overwritten and an
 * `edit_entry` audit record) and reverting it (the chosen snapshot's content
 * copied forward as a new top version, with a `revert_entry` audit record).
 * History is only ever appended to.
 */
module Editing {
  import opened Util
  import opened Models

  /** `get_latest_version(entry)`: the largest version among the entry's snapshots, or 0 if it has none. */
  function LatestVersion(snapshots: seq<Snapshot>, entryId: Id): nat
  {
    if snapshots == [] then 0
    else
      var rest := LatestVersion(snapshots[..|snapshots| - 1], entryId);
      var last := snapshots[|snapshots| - 1];
      if last.entryId == entryId && last.version > rest then last.version else rest
  }

  /**
   * The current version bounds every version of the entry and is one of
   * them; it is 0 exactly when nothing bigger has been written.
   */
  lemma {:induction false} LatestVersionIsMax(snapshots: seq<Snapshot>, entryId: Id)
    ensures forall k :: 0 <= k < |snapshots| && snapshots[k].entryId == entryId ==>
              snapshots[k].version <= LatestVersion(snapshots, entryId)
    ensures LatestVersion(snapshots, entryId) == 0 ||
            exists k :: 0 <= k < |snapshots| && snapshots[k].entryId == entryId
                        && snapshots[k].version == LatestVersion(snapshots, entryId)
    ensures (forall k :: 0 <= k < |snapshots| ==> snapshots[k].entryId != entryId) ==>
              LatestVersion(snapshots, entryId) == 0
  {
    if snapshots != [] {
      var init := snapshots[..|snapshots| - 1];
      LatestVersionIsMax(init, entryId);
      var rest := LatestVersion(init, entryId);
      assert forall k :: 0 <= k < |init| ==> init[k] == snapshots[k];
      if rest != 0 {
        var k :| 0 <= k < |init| && init[k].entryId == entryId && init[k].version == rest;
        assert snapshots[k] == init[k];
      }
    }
  }

  /** With a contiguous history 1..n the current version is n, the number of snapshots. */
  lemma {:induction false} LatestIsHistoryLength(snapshots: seq<Snapshot>, entryId: Id)
    requires Contiguous(History(snapshots, entryId))
    ensures LatestVersion(snapshots, entryId) == |History(snapshots, entryId)|
  {
    if snapshots != [] {
      var init := snapshots[..|snapshots| - 1];
      var last := snapshots[|snapshots| - 1];
      var h0 := History(init, entryId);
      var h := History(snapshots, entryId);
      assert forall k :: 0 <= k < |h0| ==> h0[k] == h[k];
      LatestIsHistoryLength(init, entryId);
      if last.entryId == entryId {
        assert h[|h0|] == last;
      }
    }
  }

  /**
   * The three effects both write paths commit together: a snapshot of entry
   * `i` holding `content` at `version`, the live content set to `content`,
   * and one audit record for the entry's patient.
   */
  function WriteVersion(t: Tables, i: nat, version: nat, content: string, actor: Option<Id>, meta: AuditMeta): (r: Tables)
    requires i < |t.entries|
    ensures |r.entries| == |t.entries| && r.entries[i].id == t.entries[i].id
  {
    var e := t.entries[i];
    t.(snapshots := t.snapshots + [Snapshot(e.id, version, content, actor)],
       entries := t.entries[i := e.(content := content)],
       audit := t.audit + [AuditRecord(e.patientId, actor, meta)])
  }

  /** Writing the next version appends exactly that snapshot to the entry's history and to no other. */
  lemma WriteNextVersionHistory(t: Tables, i: nat, content: string, actor: Option<Id>, meta: AuditMeta)
    requires i < |t.entries|
    ensures var e := t.entries[i];
            var h := History(t.snapshots, e.id);
            var r := WriteVersion(t, i, |h| + 1, content, actor, meta);
            && History(r.snapshots, e.id) == h + [Snapshot(e.id, |h| + 1, content, actor)]
            && (forall id: Id :: id != e.id ==> History(r.snapshots, id) == History(t.snapshots, id))
  {
    var e := t.entries[i];
    var h := History(t.snapshots, e.id);
    var s := Snapshot(e.id, |h| + 1, content, actor);
    forall id: Id ensures History(t.snapshots + [s], id) == History(t.snapshots, id) + (if id == e.id then [s] else []) {
      HistoryAppend(t.snapshots, s, id);
    }
  }

  /** Writing the next version keeps the tables well formed. */
  lemma WriteNextVersionWf(t: Tables, i: nat, content: string, actor: Option<Id>, meta: AuditMeta, r: Tables)
    requires Wf(t) && i < |t.entries|
    requires r == WriteVersion(t, i, |History(t.snapshots, t.entries[i].id)| + 1, content, actor, meta)
    ensures Wf(r)
  {
    var e := t.entries[i];
    var s := Snapshot(e.id, |History(t.snapshots, e.id)| + 1, content, actor);
    assert Consistent(e, t.snapshots);
    WriteSelfConsistent(e, t.snapshots, content, actor);
    WriteOthersConsistent(t.entries, t.snapshots, i, s);
    WriteKeepsOrder(t.entries, i, content);
  }

  /** The written entry's history gains its next version, which holds the new live content. */
  lemma WriteSelfConsistent(e: Entry, snapshots: seq<Snapshot>, content: string, actor: Option<Id>)
    requires Contiguous(History(snapshots, e.id))
    ensures Consistent(e.(content := content), snapshots + [Snapshot(e.id, |History(snapshots, e.id)| + 1, content, actor)])
  {
    HistoryAppend(snapshots, Snapshot(e.id, |History(snapshots, e.id)| + 1, content, actor), e.id);
  }

  /** A snapshot of entry `i` leaves the histories, and so the consistency, of the other entries alone. */
  lemma WriteOthersConsistent(entries: seq<Entry>, snapshots: seq<Snapshot>, i: nat, s: Snapshot)
    requires i < |entries| && Ascending(EntryKey, entries) && s.entryId == entries[i].id
    requires forall j :: 0 <= j < |entries| ==> Consistent(entries[j], snapshots)
    ensures forall j :: 0 <= j < |entries| && j != i ==> Consistent(entries[j], snapshots + [s])
  {
    forall j | 0 <= j < |entries| && j != i ensures Consistent(entries[j], snapshots + [s]) {
      assert entries[j].id != s.entryId by {
        if j < i { assert EntryKey(entries[j]) < EntryKey(entries[i]); }
        else { assert EntryKey(entries[i]) < EntryKey(entries[j]); }
      }
      HistoryAppend(snapshots, s, entries[j].id);
    }
  }

  /** Changing one entry's content keeps the ids, and so the order, of the entry table. */
  lemma WriteKeepsOrder(entries: seq<Entry>, i: nat, content: string)
    requires i < |entries| && Ascending(EntryKey, entries)
    ensures Ascending(EntryKey, entries[i := entries[i].(content := content)])
  {
    var r := entries[i := entries[i].(content := content)];
    assert forall k :: 0 <= k < |r| ==> EntryKey(r[k]) == EntryKey(entries[k]);
  }

  /** The effect of `snapshot_and_update_entry(entry, new_content, actor)` on the tables. */
  function Edited(t: Tables, i: nat, newContent: string, actor: Option<Id>): Tables
    requires i < |t.entries|
  {
    var v := LatestVersion(t.snapshots, t.entries[i].id) + 1;
    WriteVersion(t, i, v, newContent, actor, EditEntry(t.entries[i].id, v))
  }

  /** `entry.versions.filter(version=target).first()`. */
  function FindVersion(h: seq<Snapshot>, target: int): (r: Option<Snapshot>)
    ensures r.Some? ==> r.value in h && r.value.version == target
    ensures r.None? ==> forall k :: 0 <= k < |h| ==> h[k].version != target
  {
    if h == [] then None
    else if h[0].version == target then Some(h[0])
    else FindVersion(h[1..], target)
  }

  /**
   * The effect of `revert_entry_to_version(entry, target, actor)`: None when
   * the entry has no snapshot with that version (`ValueError("version_not_found")`).
   */
  function Reverted(t: Tables, i: nat, target: int, actor: Option<Id>): Option<Tables>
    requires i < |t.entries|
  {
    var e := t.entries[i];
    match FindVersion(History(t.snapshots, e.id), target)
    case None => None
    case Some(snap) =>
      var v := LatestVersion(t.snapshots, e.id) + 1;
      Some(WriteVersion(t, i, v, snap.content, actor, RevertEntry(e.id, target, v)))
  }

  /** An entry's current version is the length of its history, on well-formed tables. */
  lemma CurrentVersion(t: Tables, i: nat)
    requires Wf(t) && i < |t.entries|
    ensures LatestVersion(t.snapshots, t.entries[i].id) == |History(t.snapshots, t.entries[i].id)|
  {
    assert Consistent(t.entries[i], t.snapshots);
    LatestIsHistoryLength(t.snapshots, t.entries[i].id);
  }

  /** An edit keeps the tables well formed. */
  lemma EditKeepsWf(t: Tables, i: nat, newContent: string, actor: Option<Id>)
    requires Wf(t) && i < |t.entries|
    ensures Wf(Edited(t, i, newContent, actor))
  {
    var e := t.entries[i];
    var h := History(t.snapshots, e.id);
    CurrentVersion(t, i);
    var meta := EditEntry(e.id, |h| + 1);
    assert Edited(t, i, newContent, actor) == WriteVersion(t, i, |h| + 1, newContent, actor, meta);
    WriteNextVersionWf(t, i, newContent, actor, meta, Edited(t, i, newContent, actor));
  }

  /**
   * An edit of an entry whose history has n snapshots appends exactly the
   * snapshot (n+1, new content, actor) to that history and to no other.
   */
  lemma EditHistory(t: Tables, i: nat, newContent: string, actor: Option<Id>)
    requires i < |t.entries| && Contiguous(History(t.snapshots, t.entries[i].id))
    ensures var e := t.entries[i];
            var h := History(t.snapshots, e.id);
            var r := Edited(t, i, newContent, actor);
            && History(r.snapshots, e.id) == h + [Snapshot(e.id, |h| + 1, newContent, actor)]
            && (forall id: Id :: id != e.id ==> History(r.snapshots, id) == History(t.snapshots, id))
  {
    var e := t.entries[i];
    var h := History(t.snapshots, e.id);
    LatestIsHistoryLength(t.snapshots, e.id);
    var meta := EditEntry(e.id, |h| + 1);
    assert Edited(t, i, newContent, actor) == WriteVersion(t, i, |h| + 1, newContent, actor, meta);
    WriteNextVersionHistory(t, i, newContent, actor, meta);
  }

  /** After an edit of an entry whose history has n snapshots, its current version is n+1. */
  lemma EditVersion(t: Tables, i: nat, newContent: string, actor: Option<Id>)
    requires i < |t.entries| && Contiguous(History(t.snapshots, t.entries[i].id))
    ensures LatestVersion(Edited(t, i, newContent, actor).snapshots, t.entries[i].id)
         == |History(t.snapshots, t.entries[i].id)| + 1
  {
    var e := t.entries[i];
    var h := History(t.snapshots, e.id);
    var r := Edited(t, i, newContent, actor);
    EditHistory(t, i, newContent, actor);
    ContiguousAppend(h, Snapshot(e.id, |h| + 1, newContent, actor));
    LatestIsHistoryLength(r.snapshots, e.id);
  }

  /**
   * An edit makes the new content live on that entry only, appends one
   * `edit_entry` record `{entry_id, new_version: n+1}` for the entry's
   * patient, and leaves the other tables and the id counters alone.
   */
  lemma EditFrame(t: Tables, i: nat, newContent: string, actor: Option<Id>)
    requires i < |t.entries| && Contiguous(History(t.snapshots, t.entries[i].id))
    ensures var e := t.entries[i];
            var n := |History(t.snapshots, e.id)|;
            var r := Edited(t, i, newContent, actor);
            && |r.entries| == |t.entries|
            && r.entries[i] == e.(content := newContent)
            && (forall j :: 0 <= j < |t.entries| && j != i ==> r.entries[j] == t.entries[j])
            && r.audit == t.audit + [AuditRecord(e.patientId, actor, EditEntry(e.id, n + 1))]
            && ActionName(r.audit[|t.audit|].meta) == "edit_entry"
            && r.patients == t.patients && r.highlights == t.highlights
            && r.nextEntryId == t.nextEntryId && r.nextHighlightId == t.nextHighlightId
  {
    LatestIsHistoryLength(t.snapshots, t.entries[i].id);
  }

  /** The snapshot a revert copies from: in a contiguous history, version `target` sits at position target-1. */
  lemma FindVersionContiguous(h: seq<Snapshot>, target: int)
    requires Contiguous(h)
    ensures FindVersion(h, target).Some? <==> 1 <= target <= |h|
    ensures 1 <= target <= |h| ==> FindVersion(h, target) == Some(h[target - 1])
  {
    var f := FindVersion(h, target);
    if 1 <= target <= |h| {
      assert h[target - 1].version == target;
      var k :| 0 <= k < |h| && h[k] == f.value;
      assert k + 1 == target;
    }
  }

  /**
   * A revert of an entry whose history has n snapshots finds its target
   * exactly when 1 <= target <= n, and is then the write of version n+1
   * holding the content of version `target`.
   */
  lemma RevertFound(t: Tables, i: nat, target: int, actor: Option<Id>)
    requires i < |t.entries| && Contiguous(History(t.snapshots, t.entries[i].id))
    ensures var e := t.entries[i];
            var h := History(t.snapshots, e.id);
            && (Reverted(t, i, target, actor).Some? <==> 1 <= target <= |h|)
            && (1 <= target <= |h| ==>
                  Reverted(t, i, target, actor)
                  == Some(WriteVersion(t, i, |h| + 1, h[target - 1].content, actor, RevertEntry(e.id, target, |h| + 1))))
  {
    var e := t.entries[i];
    LatestIsHistoryLength(t.snapshots, t.entries[i].id);
    FindVersionContiguous(History(t.snapshots, e.id), target);
  }

  /** A revert keeps the tables well formed. */
  lemma RevertKeepsWf(t: Tables, i: nat, target: int, actor: Option<Id>, r: Tables)
    requires Wf(t) && i < |t.entries|
    requires Reverted(t, i, target, actor) == Some(r)
    ensures Wf(r)
  {
    var e := t.entries[i];
    var h := History(t.snapshots, e.id);
    assert Consistent(e, t.snapshots);
    RevertIsWrite(t, i, target, actor, r);
    WriteNextVersionWf(t, i, h[target - 1].content, actor, RevertEntry(e.id, target, |h| + 1), r);
  }

  /** The tables a successful revert produces are the write of the target's content as the next version. */
  lemma RevertIsWrite(t: Tables, i: nat, target: int, actor: Option<Id>, r: Tables)
    requires i < |t.entries| && Contiguous(History(t.snapshots, t.entries[i].id))
    requires Reverted(t, i, target, actor) == Some(r)
    ensures var h := History(t.snapshots, t.entries[i].id);
            && 1 <= target <= |h|
            && r == WriteVersion(t, i, |h| + 1, h[target - 1].content, actor, RevertEntry(t.entries[i].id, target, |h| + 1))
  {
    RevertFound(t, i, target, actor);
  }

  /**
   * A successful revert appends the snapshot (n+1, content of version
   * `target`, actor) to the entry's history only, keeps every earlier
   * snapshot, and makes that content the entry's live content.
   */
  lemma RevertHistory(t: Tables, i: nat, target: int, actor: Option<Id>)
    requires i < |t.entries| && Contiguous(History(t.snapshots, t.entries[i].id))
    requires Reverted(t, i, target, actor).Some?
    ensures var e := t.entries[i];
            var h := History(t.snapshots, e.id);
            var r := Reverted(t, i, target, actor).value;
            && 1 <= target <= |h|
            && History(r.snapshots, e.id) == h + [Snapshot(e.id, |h| + 1, h[target - 1].content, actor)]
            && LatestVersion(r.snapshots, e.id) == |h| + 1
            && (forall id: Id :: id != e.id ==> History(r.snapshots, id) == History(t.snapshots, id))
            && t.snapshots <= r.snapshots && |r.snapshots| == |t.snapshots| + 1
            && r.entries[i].content == h[target - 1].content
  {
    var e := t.entries[i];
    var h := History(t.snapshots, e.id);
    var meta := RevertEntry(e.id, target, |h| + 1);
    RevertFound(t, i, target, actor);
    var r := Reverted(t, i, target, actor).value;
    WriteNextVersionHistory(t, i, h[target - 1].content, actor, meta);
    LatestIsHistoryLength(r.snapshots, e.id);
  }

  /**
   * A successful revert touches no other entry, appends one `revert_entry`
   * record `{entry_id, reverted_to: target, new_version: n+1}` and leaves the
   * other tables and the id counters alone.
   */
  lemma RevertFrame(t: Tables, i: nat, target: int, actor: Option<Id>)
    requires i < |t.entries| && Contiguous(History(t.snapshots, t.entries[i].id))
    requires Reverted(t, i, target, actor).Some?
    ensures var e := t.entries[i];
            var n := |History(t.snapshots, e.id)|;
            var r := Reverted(t, i, target, actor).value;
            && |r.entries| == |t.entries|
            && (forall j :: 0 <= j < |t.entries| && j != i ==> r.entries[j] == t.entries[j])
            && r.audit == t.audit + [AuditRecord(e.patientId, actor, RevertEntry(e.id, target, n + 1))]
            && ActionName(r.audit[|t.audit|].meta) == "revert_entry"
            && r.patients == t.patients && r.highlights == t.highlights
            && r.nextEntryId == t.nextEntryId && r.nextHighlightId == t.nextHighlightId
  {
    RevertFound(t, i, target, actor);
  }

  /** Editing a fresh entry to "v1" and then to "v2" gives it the history v1, v2. */
  lemma EditTwiceFresh(t: Tables, i: nat, actor: Option<Id>)
    requires i < |t.entries| && History(t.snapshots, t.entries[i].id) == []
    ensures var id := t.entries[i].id;
            var t1 := Edited(t, i, "v1", actor);
            var t2 := Edited(t1, i, "v2", actor);
            && LatestVersion(t1.snapshots, id) == 1
            && LatestVersion(t2.snapshots, id) == 2
            && i < |t2.entries| && t2.entries[i].id == id
            && History(t2.snapshots, id) == [Snapshot(id, 1, "v1", actor), Snapshot(id, 2, "v2", actor)]
  {
    var id := t.entries[i].id;
    EditHistory(t, i, "v1", actor);
    EditVersion(t, i, "v1", actor);
    var t1 := Edited(t, i, "v1", actor);
    var h1 := [Snapshot(id, 1, "v1", actor)];
    assert History(t1.snapshots, id) == [] + h1;
    assert t1.entries[i].id == id;
    EditHistory(t1, i, "v2", actor);
    EditVersion(t1, i, "v2", actor);
    var t2 := Edited(t1, i, "v2", actor);
    assert History(t2.snapshots, id) == h1 + [Snapshot(id, 2, "v2", actor)];
  }

  /** Reverting an entry with history v1, v2 to version 1 gives version 3 with "v1" live and on top. */
  lemma RevertToFirst(t: Tables, i: nat, actor: Option<Id>)
    requires i < |t.entries|
    requires var id := t.entries[i].id;
             History(t.snapshots, id) == [Snapshot(id, 1, "v1", actor), Snapshot(id, 2, "v2", actor)]
    ensures Reverted(t, i, 1, actor).Some?
    ensures var id := t.entries[i].id;
            var r := Reverted(t, i, 1, actor).value;
            && LatestVersion(r.snapshots, id) == 3
            && r.entries[i].content == "v1"
            && History(r.snapshots, id)
               == [Snapshot(id, 1, "v1", actor), Snapshot(id, 2, "v2", actor), Snapshot(id, 3, "v1", actor)]
  {
    var id := t.entries[i].id;
    RevertFound(t, i, 1, actor);
    RevertHistory(t, i, 1, actor);
    var r := Reverted(t, i, 1, actor).value;
    assert History(r.snapshots, id)
        == [Snapshot(id, 1, "v1", actor), Snapshot(id, 2, "v2", actor)] + [Snapshot(id, 3, "v1", actor)];
  }

  /** Editing a fresh entry to "v1", then "v2", then reverting to version 1 gives version 3 with "v1" live and on top. */
  lemma EditEditRevertScenario(t: Tables, i: nat, actor: Option<Id>)
    requires i < |t.entries| && History(t.snapshots, t.entries[i].id) == []
    ensures var t2 := Edited(Edited(t, i, "v1", actor), i, "v2", actor);
            && Reverted(t2, i, 1, actor).Some?
            && var t3 := Reverted(t2, i, 1, actor).value;
               && LatestVersion(t3.snapshots, t.entries[i].id) == 3
               && t3.entries[i].content == "v1"
  {
    EditTwiceFresh(t, i, actor);
    RevertToFirst(Edited(Edited(t, i, "v1", actor), i, "v2", actor), i, actor);
  }

  /* ---- the imperative operations ---- */

  /** `snapshot_and_update_entry(entry, new_content, actor)` on the entry at position `i`. */
  method SnapshotAndUpdateEntry(db: Database, i: nat, newContent: string, actor: Option<Id>) returns (newVersion: nat)
    requires db.Valid() && i < |db.entries|
    modifies db
    ensures db.Valid()
    ensures db.State() == Edited(old(db.State()), i, newContent, actor)
    ensures newVersion == old(LatestVersion(db.snapshots, db.entries[i].id)) + 1
  {
    ghost var t := db.State();
    var e := db.entries[i];
    var curVer := LatestVersion(db.snapshots, e.id);
    db.snapshots := db.snapshots + [Snapshot(e.id, curVer + 1, newContent, actor)];
    db.entries := db.entries[i := e.(content := newContent)];
    db.audit := db.audit + [AuditRecord(e.patientId, actor, EditEntry(e.id, curVer + 1))];
    newVersion := curVer + 1;
    assert db.State() == WriteVersion(t, i, curVer + 1, newContent, actor, EditEntry(e.id, curVer + 1));
    EditKeepsWf(t, i, newContent, actor);
  }

  /**
   * `revert_entry_to_version(entry, target_version, actor)` on the entry at
   * position `i`; None stands for the `ValueError` it raises, with nothing written.
   */
  method RevertEntryToVersion(db: Database, i: nat, targetVersion: int, actor: Option<Id>) returns (newVersion: Option<nat>)
    requires db.Valid() && i < |db.entries|
    modifies db
    ensures db.Valid()
    ensures newVersion.None? <==> Reverted(old(db.State()), i, targetVersion, actor).None?
    ensures newVersion.None? ==> db.State() == old(db.State())
    ensures newVersion.Some? ==>
              && db.State() == Reverted(old(db.State()), i, targetVersion, actor).value
              && newVersion.value == old(LatestVersion(db.snapshots, db.entries[i].id)) + 1
  {
    ghost var t := db.State();
    var e := db.entries[i];
    var snap := FindVersion(History(db.snapshots, e.id), targetVersion);
    if snap.None? {
      return None;
    }
    var curVer := LatestVersion(db.snapshots, e.id);
    db.snapshots := db.snapshots + [Snapshot(e.id, curVer + 1, snap.value.content, actor)];
    db.entries := db.entries[i := e.(content := snap.value.content)];
    db.audit := db.audit + [AuditRecord(e.patientId, actor, RevertEntry(e.id, targetVersion, curVer + 1))];
    newVersion := Some(curVer + 1);
    ghost var w := WriteVersion(t, i, curVer + 1, snap.value.content, actor, RevertEntry(e.id, targetVersion, curVer + 1));
    assert db.State() == w;
    assert Reverted(t, i, targetVersion, actor) == Some(w);
    RevertKeepsWf(t, i, targetVersion, actor, w);
  }
}
