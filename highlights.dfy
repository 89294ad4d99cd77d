/**
 * The rule-based highlight generator: it scans the 20 newest entries of a
 * patient whose type is not a machine summary, looks in each lowered text for
 * the risk keywords in table order, and turns the first hit into a
 * `suggested` highlight; it stops after one highlight and records how many it
 * created in one `generate_highlights_rule` audit record.
 *
 * The scan is written over any keyword table `rules`; the generator itself
 * always uses `RiskKeywords`.
 */
module Highlights {
  import opened Util
  import opened Text
  import opened Models

  /** One row of the keyword table: the keyword searched for and the reason reported. */
  datatype Rule = Rule(keyword: string, reason: string)

  /** `RISK_KEYWORDS`, in the order they are tried. */
  const RiskKeywords: seq<Rule> := [
    Rule("allergy", "Possible allergy mentioned"),
    Rule("chest pain", "Potential cardiac symptom"),
    Rule("shortness of breath", "Respiratory risk signal"),
    Rule("bleeding", "Bleeding risk signal"),
    Rule("suicidal", "Self-harm risk signal")
  ]

  /** How many entries one run scans. */
  const ScanLimit: nat := 20

  /** `MAX`: how many highlights one run creates at most. */
  const MaxCreated: nat := 1

  /** How much of the entry the highlight text and span cover. */
  const TextCap: nat := 120

  /* ---- the keyword lookup ---- */

  /** The first keyword of `rules`, from position `k` on, that occurs in `lowered`. */
  function FirstKeywordFrom(rules: seq<Rule>, lowered: string, k: nat): (r: Option<nat>)
    requires k <= |rules|
    ensures r.Some? ==> k <= r.value < |rules| && Contains(lowered, rules[r.value].keyword)
    ensures r.Some? ==> forall j :: k <= j < r.value ==> !Contains(lowered, rules[j].keyword)
    ensures r.None? ==> forall j :: k <= j < |rules| ==> !Contains(lowered, rules[j].keyword)
    decreases |rules| - k
  {
    if k == |rules| then None
    else if Contains(lowered, rules[k].keyword) then Some(k)
    else FirstKeywordFrom(rules, lowered, k + 1)
  }

  /**
   * The inner loop over the keyword table: the position of the keyword that
   * wins for a lowered text, the first one in table order that occurs in it;
   * None if none does.
   */
  function FirstKeyword(rules: seq<Rule>, lowered: string): (r: Option<nat>)
    ensures r.Some? ==> r.value < |rules| && Contains(lowered, rules[r.value].keyword)
    ensures r.Some? ==> forall j :: 0 <= j < r.value ==> !Contains(lowered, rules[j].keyword)
    ensures r.None? <==> forall j :: 0 <= j < |rules| ==> !Contains(lowered, rules[j].keyword)
  {
    FirstKeywordFrom(rules, lowered, 0)
  }

  /** The first-match characterisation determines the winning keyword. */
  lemma FirstKeywordUnique(rules: seq<Rule>, lowered: string, k: nat)
    requires k < |rules| && Contains(lowered, rules[k].keyword)
    requires forall j :: 0 <= j < k ==> !Contains(lowered, rules[j].keyword)
    ensures FirstKeyword(rules, lowered) == Some(k)
  {
  }

  /* ---- the scanned entries ---- */

  /** The entries one run looks at: the patient's, minus machine summaries (type starting `ai_`). */
  predicate Scanned(e: Entry, pid: Id)
  {
    e.patientId == pid && !IsAiType(e.entryType)
  }

  /** The patient's non-`ai_` entries, newest first. */
  function NewestScanned(entries: seq<Entry>, pid: Id): seq<Entry>
  {
    if entries == [] then []
    else
      var last := entries[|entries| - 1];
      (if Scanned(last, pid) then [last] else []) + NewestScanned(entries[..|entries| - 1], pid)
  }

  /** The newest-first list holds exactly the eligible entries. */
  lemma {:induction false} NewestScannedMembers(entries: seq<Entry>, pid: Id)
    ensures forall e :: e in NewestScanned(entries, pid) <==> e in entries && Scanned(e, pid)
  {
    if entries != [] {
      var init := entries[..|entries| - 1];
      NewestScannedMembers(init, pid);
      assert entries == init + [entries[|entries| - 1]];
    }
  }

  /** Listed newest first, the eligible entries of a table in id order descend by id. */
  lemma {:induction false} NewestScannedOrder(entries: seq<Entry>, pid: Id)
    ensures Ascending(EntryKey, entries) ==> Descending(EntryKey, NewestScanned(entries, pid))
  {
    if entries != [] && Ascending(EntryKey, entries) {
      var init := entries[..|entries| - 1];
      var last := entries[|entries| - 1];
      assert Ascending(EntryKey, init);
      NewestScannedOrder(init, pid);
      NewestScannedMembers(init, pid);
      var r := NewestScanned(init, pid);
      forall x | x in r ensures EntryKey(x) < EntryKey(last) {
        var j :| 0 <= j < |init| && init[j] == x;
        assert entries[j] == x;
      }
    }
  }

  /** The patient's non-`ai_` entries, newest first, cut to the first 20. */
  function ScanWindow(entries: seq<Entry>, pid: Id): (w: seq<Entry>)
    ensures |w| <= ScanLimit
    ensures forall e :: e in w ==> e in entries && Scanned(e, pid)
    ensures Ascending(EntryKey, entries) ==> Descending(EntryKey, w)
  {
    var all := NewestScanned(entries, pid);
    NewestScannedMembers(entries, pid);
    NewestScannedOrder(entries, pid);
    PrefixDescending(EntryKey, all, ScanLimit);
    Prefix(all, ScanLimit)
  }

  /**
   * The window holds the newest eligible entries: an eligible entry left out
   * means the window is full and every entry in it is newer.
   */
  lemma WindowIsNewest(entries: seq<Entry>, pid: Id, e: Entry)
    requires Ascending(EntryKey, entries)
    requires e in entries && Scanned(e, pid)
    requires e !in ScanWindow(entries, pid)
    ensures |ScanWindow(entries, pid)| == ScanLimit
    ensures forall k :: 0 <= k < ScanLimit ==> ScanWindow(entries, pid)[k].id > e.id
  {
    var all := NewestScanned(entries, pid);
    NewestScannedMembers(entries, pid);
    NewestScannedOrder(entries, pid);
    assert e in all;
    var j :| 0 <= j < |all| && all[j] == e;
    var w := ScanWindow(entries, pid);
    assert |all| > ScanLimit;
    assert w == all[..ScanLimit];
    forall k | 0 <= k < ScanLimit ensures w[k].id > e.id {
      assert EntryKey(all[k]) > EntryKey(all[j]);
    }
  }

  /* ---- hits and the highlights built from them ---- */

  /** An entry together with the keyword row that won for it. */
  datatype Hit = Hit(entry: Entry, rule: Rule)

  /** The hit an entry yields, if any keyword of `rules` occurs in its lowered content. */
  function HitOf(rules: seq<Rule>, e: Entry): seq<Hit>
  {
    match FirstKeyword(rules, Lower(e.content))
    case None => []
    case Some(k) => [Hit(e, rules[k])]
  }

  /** The hits of a sequence of entries, in scan order (at most one per entry). */
  function Hits(rules: seq<Rule>, w: seq<Entry>): seq<Hit>
  {
    if w == [] then [] else Hits(rules, w[..|w| - 1]) + HitOf(rules, w[|w| - 1])
  }

  /** Each hit comes from a scanned entry and names a row of the table. */
  lemma {:induction false} HitsFrom(rules: seq<Rule>, w: seq<Entry>)
    ensures |Hits(rules, w)| <= |w|
    ensures forall k :: 0 <= k < |Hits(rules, w)| ==> Hits(rules, w)[k].entry in w && Hits(rules, w)[k].rule in rules
  {
    if w != [] {
      HitsFrom(rules, w[..|w| - 1]);
    }
  }

  /** Each hit names a keyword that occurs in its entry's lowered content. */
  lemma {:induction false} HitsMatch(rules: seq<Rule>, w: seq<Entry>)
    ensures forall k :: 0 <= k < |Hits(rules, w)| ==>
              Contains(Lower(Hits(rules, w)[k].entry.content), Hits(rules, w)[k].rule.keyword)
  {
    if w != [] {
      HitsMatch(rules, w[..|w| - 1]);
    }
  }

  lemma {:induction false} HitsConcat(rules: seq<Rule>, a: seq<Entry>, b: seq<Entry>)
    ensures Hits(rules, a + b) == Hits(rules, a) + Hits(rules, b)
    decreases |b|
  {
    if b == [] {
      assert a + b == a;
    } else {
      var b' := b[..|b| - 1];
      assert (a + b)[..|a + b| - 1] == a + b';
      assert (a + b)[|a + b| - 1] == b[|b| - 1];
      HitsConcat(rules, a, b');
      assert Hits(rules, a + b) == Hits(rules, a) + Hits(rules, b') + HitOf(rules, b[|b| - 1]);
    }
  }

  /** A sequence of entries yields no hit exactly when no keyword occurs in any of their lowered texts. */
  lemma {:induction false} HitsEmpty(rules: seq<Rule>, w: seq<Entry>)
    ensures Hits(rules, w) == [] <==>
            forall i, j :: 0 <= i < |w| && 0 <= j < |rules| ==> !Contains(Lower(w[i].content), rules[j].keyword)
  {
    if w != [] {
      HitsEmpty(rules, w[..|w| - 1]);
      var x := w[|w| - 1];
      if FirstKeyword(rules, Lower(x.content)).None? {
        forall i, j | 0 <= i < |w| - 1 && 0 <= j < |rules|
          ensures Contains(Lower(w[..|w| - 1][i].content), rules[j].keyword) == Contains(Lower(w[i].content), rules[j].keyword)
        {
        }
      }
    }
  }

  /** The first hit of a scan comes from the first entry with a keyword, and names its first keyword. */
  lemma HitsFirst(rules: seq<Rule>, w: seq<Entry>, i: nat, k: nat)
    requires i < |w|
    requires forall i', j :: 0 <= i' < i && 0 <= j < |rules| ==> !Contains(Lower(w[i'].content), rules[j].keyword)
    requires k < |rules| && Contains(Lower(w[i].content), rules[k].keyword)
    requires forall j :: 0 <= j < k ==> !Contains(Lower(w[i].content), rules[j].keyword)
    ensures |Hits(rules, w)| > 0 && Hits(rules, w)[0] == Hit(w[i], rules[k])
  {
    FirstKeywordUnique(rules, Lower(w[i].content), k);
    var a := w[..i];
    assert forall i', j :: 0 <= i' < |a| && 0 <= j < |rules| ==> !Contains(Lower(a[i'].content), rules[j].keyword);
    HitsEmpty(rules, a);
    SplitAt(w, i);
    HitsConcat(rules, a + [w[i]], w[i + 1..]);
    HitsConcat(rules, a, [w[i]]);
    assert [w[i]][..0] == [];
    assert Hits(rules, [w[i]]) == HitOf(rules, w[i]);
  }

  /** `Hits` of a scan extended by one entry. */
  lemma HitsStep(rules: seq<Rule>, w: seq<Entry>, i: nat)
    requires i < |w|
    ensures Hits(rules, w[..i + 1]) == Hits(rules, w[..i]) + HitOf(rules, w[i])
  {
    assert w[..i + 1][..i] == w[..i];
  }

  /** Once the first `i` entries of a scan have enough hits, the remaining entries cannot change the first ones. */
  lemma FirstHitStable(rules: seq<Rule>, w: seq<Entry>, i: nat)
    requires i <= |w| && |Hits(rules, w[..i])| >= MaxCreated
    ensures Prefix(Hits(rules, w), MaxCreated) == Prefix(Hits(rules, w[..i]), MaxCreated)
  {
    assert w == w[..i] + w[i..];
    HitsConcat(rules, w[..i], w[i..]);
    PrefixOfLonger(Hits(rules, w[..i]), Hits(rules, w[i..]), MaxCreated);
  }

  /** The scan is over once every entry has been looked at or enough highlights exist. */
  lemma ScanDone(firstId: Id, pid: Id, actor: Option<Id>, rules: seq<Rule>, w: seq<Entry>, i: nat)
    requires i <= |w|
    requires i == |w| || |Build(firstId, pid, actor, Prefix(Hits(rules, w[..i]), MaxCreated))| >= MaxCreated
    ensures Build(firstId, pid, actor, Prefix(Hits(rules, w[..i]), MaxCreated))
         == Build(firstId, pid, actor, Prefix(Hits(rules, w), MaxCreated))
  {
    if i == |w| {
      assert w[..i] == w;
    } else {
      FirstHitStable(rules, w, i);
    }
  }

  /** The highlight made from a hit: text, reason, provenance and span, status `suggested`. */
  function MakeHighlight(id: Id, pid: Id, actor: Option<Id>, hit: Hit): (h: Highlight)
    ensures h.patientId == pid && h.entryId == hit.entry.id && h.status == Suggested
    ensures 0 == h.spanStart <= h.spanEnd <= |hit.entry.content| && h.spanEnd <= TextCap
    ensures h.spanEnd == |hit.entry.content| || h.spanEnd == TextCap
  {
    var c := hit.entry.content;
    Highlight(id, pid, actor, hit.rule.keyword + ": " + Prefix(c, TextCap), hit.rule.reason,
              hit.entry.id, 0, if |c| < TextCap then |c| else TextCap, Suggested)
  }

  /** Highlights for `hits`, numbered from `firstId` on. */
  function Build(firstId: Id, pid: Id, actor: Option<Id>, hits: seq<Hit>): (r: seq<Highlight>)
    ensures |r| == |hits|
    ensures forall k :: 0 <= k < |r| ==> r[k] == MakeHighlight(firstId + k, pid, actor, hits[k])
  {
    if hits == [] then []
    else Build(firstId, pid, actor, hits[..|hits| - 1]) + [MakeHighlight(firstId + |hits| - 1, pid, actor, hits[|hits| - 1])]
  }

  /** While nothing has been created, one more entry creates the highlight of its hit, if it has one. */
  lemma BuildStep(firstId: Id, pid: Id, actor: Option<Id>, rules: seq<Rule>, w: seq<Entry>, i: nat, k: Option<nat>)
    requires i < |w| && Prefix(Hits(rules, w[..i]), MaxCreated) == []
    requires k == FirstKeyword(rules, Lower(w[i].content))
    ensures Build(firstId, pid, actor, Prefix(Hits(rules, w[..i + 1]), MaxCreated))
         == if k.Some? then [MakeHighlight(firstId, pid, actor, Hit(w[i], rules[k.value]))] else []
  {
    HitsStep(rules, w, i);
    if k.Some? {
      var hit := Hit(w[i], rules[k.value]);
      assert Prefix(Hits(rules, w[..i + 1]), MaxCreated) == [hit];
      assert [hit][..0] == [];
    }
  }

  /* ---- one run ---- */

  /** The highlights one run of `generate_rule_based_highlights(patient, actor)` creates. */
  function RuleCreated(t: Tables, pid: Id, actor: Option<Id>): (r: seq<Highlight>)
    ensures |r| <= MaxCreated
    ensures forall k :: 0 <= k < |r| ==>
              && r[k].id == t.nextHighlightId + k
              && r[k].patientId == pid && r[k].createdBy == actor && r[k].status == Suggested
              && 0 == r[k].spanStart <= r[k].spanEnd <= TextCap
  {
    Build(t.nextHighlightId, pid, actor, Prefix(Hits(RiskKeywords, ScanWindow(t.entries, pid)), MaxCreated))
  }

  /**
   * Every highlight a run creates points at an entry of the scanned window,
   * and its span lies within that entry's content.
   */
  lemma CreatedFromWindow(t: Tables, pid: Id, actor: Option<Id>)
    ensures forall k :: 0 <= k < |RuleCreated(t, pid, actor)| ==>
              exists e :: e in ScanWindow(t.entries, pid) && e.id == RuleCreated(t, pid, actor)[k].entryId
                          && RuleCreated(t, pid, actor)[k].spanEnd <= |e.content|
  {
    var w := ScanWindow(t.entries, pid);
    var c := RuleCreated(t, pid, actor);
    var hits := Prefix(Hits(RiskKeywords, w), MaxCreated);
    HitsFrom(RiskKeywords, w);
    forall k | 0 <= k < |c| ensures exists e :: e in w && e.id == c[k].entryId && c[k].spanEnd <= |e.content| {
      assert hits[k] == Hits(RiskKeywords, w)[k];
      assert c[k] == MakeHighlight(t.nextHighlightId + k, pid, actor, hits[k]);
    }
  }

  /** The tables after one run: the new highlights stored and one audit record with their count. */
  function RuleGenerated(t: Tables, pid: Id, actor: Option<Id>): Tables
  {
    var c := RuleCreated(t, pid, actor);
    t.(highlights := t.highlights + c,
       nextHighlightId := t.nextHighlightId + |c|,
       audit := t.audit + [AuditRecord(pid, actor, GenerateHighlightsRule(|c|))])
  }

  /**
   * No highlight is created exactly when no risk keyword occurs in the
   * lowered content of any scanned entry.
   */
  lemma NoKeywordNoHighlight(t: Tables, pid: Id, actor: Option<Id>)
    ensures var w := ScanWindow(t.entries, pid);
            RuleCreated(t, pid, actor) == [] <==>
            forall i, j :: 0 <= i < |w| && 0 <= j < |RiskKeywords| ==> !Contains(Lower(w[i].content), RiskKeywords[j].keyword)
  {
    HitsEmpty(RiskKeywords, ScanWindow(t.entries, pid));
  }

  /**
   * The newest scanned entry with a keyword wins, with the first keyword of
   * the table that occurs in it: the run creates that one highlight.
   */
  lemma FirstMatchWins(t: Tables, pid: Id, actor: Option<Id>, i: nat, k: nat)
    requires var w := ScanWindow(t.entries, pid);
             && i < |w|
             && (forall i', j :: 0 <= i' < i && 0 <= j < |RiskKeywords| ==> !Contains(Lower(w[i'].content), RiskKeywords[j].keyword))
             && k < |RiskKeywords| && Contains(Lower(w[i].content), RiskKeywords[k].keyword)
             && (forall j :: 0 <= j < k ==> !Contains(Lower(w[i].content), RiskKeywords[j].keyword))
    ensures RuleCreated(t, pid, actor)
         == [MakeHighlight(t.nextHighlightId, pid, actor, Hit(ScanWindow(t.entries, pid)[i], RiskKeywords[k]))]
  {
    var w := ScanWindow(t.entries, pid);
    HitsFirst(RiskKeywords, w, i, k);
    var hits := Prefix(Hits(RiskKeywords, w), MaxCreated);
    assert hits == [Hit(w[i], RiskKeywords[k])];
  }

  /**
   * A run adds only its highlights, advances the highlight counter by their
   * number, appends exactly one `generate_highlights_rule` record holding
   * that number (0 or 1), and changes no other table.
   */
  lemma GenerateFrame(t: Tables, pid: Id, actor: Option<Id>)
    ensures var c := RuleCreated(t, pid, actor);
            var r := RuleGenerated(t, pid, actor);
            && r.highlights == t.highlights + c
            && r.nextHighlightId == t.nextHighlightId + |c|
            && |r.audit| == |t.audit| + 1 && t.audit <= r.audit
            && r.audit[|t.audit|] == AuditRecord(pid, actor, GenerateHighlightsRule(|c|))
            && ActionName(r.audit[|t.audit|].meta) == "generate_highlights_rule"
            && r.audit[|t.audit|].meta.created <= 1
            && r.patients == t.patients && r.entries == t.entries && r.snapshots == t.snapshots
            && r.nextEntryId == t.nextEntryId
  {
  }

  /** A run for an existing patient keeps the tables well formed. */
  lemma GenerateKeepsWf(t: Tables, pid: Id, actor: Option<Id>)
    requires Wf(t) && FindPatient(t.patients, pid).Some?
    ensures Wf(RuleGenerated(t, pid, actor))
  {
    var c := RuleCreated(t, pid, actor);
    StoreHighlightsKeepsWf(t, c, pid, AuditRecord(pid, actor, GenerateHighlightsRule(|c|)), RuleGenerated(t, pid, actor));
  }

  /**
   * Storing highlights of an existing patient numbered from the next
   * highlight id on, and logging one record, keeps the tables well formed.
   */
  lemma StoreHighlightsKeepsWf(t: Tables, c: seq<Highlight>, pid: Id, rec: AuditRecord, r: Tables)
    requires Wf(t) && FindPatient(t.patients, pid).Some?
    requires forall k :: 0 <= k < |c| ==> c[k].id == t.nextHighlightId + k && c[k].patientId == pid
    requires r == t.(highlights := t.highlights + c, nextHighlightId := t.nextHighlightId + |c|, audit := t.audit + [rec])
    ensures Wf(r)
  {
    assert Ascending(HighlightKey, r.highlights) by {
      forall a, b | 0 <= a < b < |r.highlights| ensures HighlightKey(r.highlights[a]) < HighlightKey(r.highlights[b]) {
        if b < |t.highlights| {
          assert HighlightKey(t.highlights[a]) < HighlightKey(t.highlights[b]);
        } else if a < |t.highlights| {
          assert r.highlights[a].id < t.nextHighlightId;
        }
      }
    }
  }

  /**
   * The run the provenance scenario exercises: when the newest scanned entry
   * reads "Staff note: chest pain reported.", the run creates one highlight
   * with reason "Potential cardiac symptom" pointing at that entry of the patient.
   */
  lemma ChestPainScenario(t: Tables, pid: Id, actor: Option<Id>)
    requires var w := ScanWindow(t.entries, pid);
             |w| > 0 && w[0].content == "Staff note: chest pain reported."
    ensures |RuleCreated(t, pid, actor)| == 1
    ensures RuleCreated(t, pid, actor)[0].riskReason == "Potential cardiac symptom"
    ensures RuleCreated(t, pid, actor)[0].text == "chest pain: " + ScanWindow(t.entries, pid)[0].content
    ensures RuleCreated(t, pid, actor)[0].spanEnd == |ScanWindow(t.entries, pid)[0].content|
    ensures RuleCreated(t, pid, actor)[0].entryId == ScanWindow(t.entries, pid)[0].id
  {
    var w := ScanWindow(t.entries, pid);
    ScenarioPieces(w[0].content, "Staff note: ", "chest pain", " reported.");
    assert RiskKeywords[0].keyword == "allergy" && RiskKeywords[1].keyword == "chest pain";
    ChestPainKeyword(RiskKeywords, "Staff note: ", "chest pain", " reported.");
    FirstMatchWins(t, pid, actor, 0, 1);
    ChestPainHighlight(t.nextHighlightId, pid, actor, w[0]);
  }

  /** The highlight that the "chest pain" row makes from the scenario's entry. */
  lemma ChestPainHighlight(id: Id, pid: Id, actor: Option<Id>, e: Entry)
    requires e.content == "Staff note: chest pain reported."
    ensures var h := MakeHighlight(id, pid, actor, Hit(e, RiskKeywords[1]));
            && h.riskReason == "Potential cardiac symptom"
            && h.text == "chest pain: " + e.content
            && h.spanEnd == |e.content|
            && h.entryId == e.id
  {
    var rule := RiskKeywords[1];
    assert rule == Rule("chest pain", "Potential cardiac symptom");
    assert Prefix(e.content, TextCap) == e.content;
    assert rule.keyword + ": " == "chest pain: ";
  }

  /**
   * In the scenario's text the first keyword that occurs is "chest pain",
   * the second of any table that starts with "allergy" and "chest pain".
   */
  lemma ChestPainKeyword(rules: seq<Rule>, a: string, b: string, c: string)
    requires |rules| >= 2 && rules[0].keyword == "allergy" && rules[1].keyword == "chest pain"
    requires a == "Staff note: " && b == "chest pain" && c == " reported."
    ensures FirstKeyword(rules, Lower(a + b + c)) == Some(1)
  {
    var l := Lower(a + b + c);
    LowerConcat(a + b, c);
    LowerConcat(a, b);
    LowerUnchanged(b);
    LowerUnchanged(c);
    assert l == Lower(a) + b + c;
    StaffNoteLower(a);
    ChestPainFound(Lower(a), b, c, rules[0].keyword);
    assert forall j :: 0 <= j < 1 ==> !Contains(l, rules[j].keyword);
    FirstKeywordUnique(rules, l, 1);
  }

  /** The scenario's text, cut where the keyword starts and ends. */
  lemma ScenarioPieces(s: string, a: string, b: string, c: string)
    requires s == "Staff note: chest pain reported."
    requires a == "Staff note: " && b == "chest pain" && c == " reported."
    ensures s == a + b + c
  {
  }

  /** Case folding of the scenario's opening words. */
  lemma StaffNoteLower(a: string)
    requires a == "Staff note: "
    ensures Lower(a) == "staff note: "
  {
  }

  /** The lowered scenario text holds "chest pain" but not "allergy" (it has no 'g'). */
  lemma ChestPainFound(a: string, b: string, c: string, allergy: string)
    requires a == "staff note: " && b == "chest pain" && c == " reported." && allergy == "allergy"
    ensures !Contains(a + b + c, allergy) && Contains(a + b + c, b)
  {
    assert 'g' !in a + b + c;
    NotContainsMissingChar(a + b + c, allergy, 5);
    ContainsMiddle(a, b, c);
  }

  /* ---- the imperative scan ---- */

  /**
   * Where the loop of the scan ends up when it resumes at entry `i` with the
   * highlights `created` so far: it stops at the end of the entries or once
   * `MaxCreated` highlights exist, and otherwise makes a highlight for the
   * entry's first keyword, if it has one.
   */
  function ScanFrom(rules: seq<Rule>, w: seq<Entry>, firstId: Id, pid: Id, actor: Option<Id>, i: nat, created: seq<Highlight>): seq<Highlight>
    requires i <= |w|
    decreases |w| - i
  {
    if i == |w| || |created| >= MaxCreated then created
    else
      var k := FirstKeyword(rules, Lower(w[i].content));
      var next := if k.Some? then created + [MakeHighlight(firstId + |created|, pid, actor, Hit(w[i], rules[k.value]))] else created;
      ScanFrom(rules, w, firstId, pid, actor, i + 1, next)
  }

  /** Resumed from any point it has reached, the loop makes the highlights of the first hits of the whole scan. */
  lemma {:induction false} ScanFromBuilds(rules: seq<Rule>, w: seq<Entry>, firstId: Id, pid: Id, actor: Option<Id>, i: nat, created: seq<Highlight>)
    requires i <= |w|
    requires created == Build(firstId, pid, actor, Prefix(Hits(rules, w[..i]), MaxCreated))
    ensures ScanFrom(rules, w, firstId, pid, actor, i, created) == Build(firstId, pid, actor, Prefix(Hits(rules, w), MaxCreated))
    decreases |w| - i
  {
    if i == |w| || |created| >= MaxCreated {
      ScanDone(firstId, pid, actor, rules, w, i);
    } else {
      var k := FirstKeyword(rules, Lower(w[i].content));
      var next := if k.Some? then created + [MakeHighlight(firstId + |created|, pid, actor, Hit(w[i], rules[k.value]))] else created;
      assert ScanFrom(rules, w, firstId, pid, actor, i, created) == ScanFrom(rules, w, firstId, pid, actor, i + 1, next);
      ScanStep(rules, w, firstId, pid, actor, i, created, k);
      ScanFromBuilds(rules, w, firstId, pid, actor, i + 1, next);
    }
  }

  /** One step of the loop, taken while nothing has been created, keeps it in step with `Build`. */
  lemma ScanStep(rules: seq<Rule>, w: seq<Entry>, firstId: Id, pid: Id, actor: Option<Id>, i: nat, created: seq<Highlight>, k: Option<nat>)
    requires i < |w| && |created| < MaxCreated
    requires created == Build(firstId, pid, actor, Prefix(Hits(rules, w[..i]), MaxCreated))
    requires k == FirstKeyword(rules, Lower(w[i].content))
    ensures k.Some? ==> created + [MakeHighlight(firstId + |created|, pid, actor, Hit(w[i], rules[k.value]))]
                        == Build(firstId, pid, actor, Prefix(Hits(rules, w[..i + 1]), MaxCreated))
    ensures k.None? ==> created == Build(firstId, pid, actor, Prefix(Hits(rules, w[..i + 1]), MaxCreated))
  {
    assert created == [];
    BuildStep(firstId, pid, actor, rules, w, i, k);
  }

  /**
   * The loop of the scan: walks `entries` in order, stopping once
   * `MaxCreated` highlights exist, and makes a highlight for each entry in
   * which a keyword of `rules` occurs, numbered from `firstId` on. The inner
   * loop over the keyword table is the lookup `FirstKeyword`.
   */
  method ScanEntries(rules: seq<Rule>, entries: seq<Entry>, firstId: Id, pid: Id, actor: Option<Id>)
    returns (created: seq<Highlight>)
    ensures created == Build(firstId, pid, actor, Prefix(Hits(rules, entries), MaxCreated))
  {
    created := [];
    var i := 0;
    ScanFromBuilds(rules, entries, firstId, pid, actor, 0, []);
    while i < |entries| && |created| < MaxCreated
      invariant i <= |entries|
      invariant ScanFrom(rules, entries, firstId, pid, actor, i, created) == ScanFrom(rules, entries, firstId, pid, actor, 0, [])
      decreases |entries| - i
    {
      var e := entries[i];
      var k := FirstKeyword(rules, Lower(e.content));
      if k.Some? {
        created := created + [MakeHighlight(firstId + |created|, pid, actor, Hit(e, rules[k.value]))];
      }
      i := i + 1;
    }
  }

  /** Stores the highlights the scan of `entries` makes, advancing the highlight counter past them. */
  method CreateFromWindow(db: Database, rules: seq<Rule>, entries: seq<Entry>, pid: Id, actor: Option<Id>)
    returns (created: seq<Highlight>)
    modifies db
    ensures created == Build(old(db.nextHighlightId), pid, actor, Prefix(Hits(rules, entries), MaxCreated))
    ensures db.State() == old(db.State()).(highlights := old(db.highlights) + created,
                                           nextHighlightId := old(db.nextHighlightId) + |created|)
  {
    created := ScanEntries(rules, entries, db.nextHighlightId, pid, actor);
    db.highlights := db.highlights + created;
    db.nextHighlightId := db.nextHighlightId + |created|;
  }

  /**
   * `generate_rule_based_highlights(patient, actor)`: scans the window with
   * the risk keyword table, then appends the audit record with the number of
   * highlights created. Returns the highlights it created.
   */
  method GenerateRuleBasedHighlights(db: Database, pid: Id, actor: Option<Id>) returns (created: seq<Highlight>)
    requires db.Valid() && FindPatient(db.patients, pid).Some?
    modifies db
    ensures db.Valid()
    ensures created == RuleCreated(old(db.State()), pid, actor)
    ensures db.State() == RuleGenerated(old(db.State()), pid, actor)
  {
    ghost var t := db.State();
    var entries := ScanWindow(db.entries, pid);
    created := CreateFromWindow(db, RiskKeywords, entries, pid, actor);
    db.audit := db.audit + [AuditRecord(pid, actor, GenerateHighlightsRule(|created|))];
    assert db.State() == RuleGenerated(t, pid, actor);
    GenerateKeepsWf(t, pid, actor);
  }
}
