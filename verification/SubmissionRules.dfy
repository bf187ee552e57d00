/** When a submission or a reopening succeeds and what it then changes, in terms of the stores themselves. */
module SubmissionRules {
  import opened Base
  import opened Drafts
  import opened Confirmations
  import opened Finalize
  import opened Workflow
  import opened Submission
  import D = Documents

  // ------------------------------------------------------------------
  // When an application may be submitted
  // ------------------------------------------------------------------

  /** The section has a draft, and a stored confirmation of exactly the values the draft has. */
  ghost predicate ConfirmedAsIs(c: Core, app: Uuid, section: Section) {
    && (app, section) in c.drafts.drafts && (app, section) in c.confirmed
    && c.confirmed[(app, section)].hash == ContentHash(c.drafts.drafts[(app, section)].values)
  }

  ghost predicate ReviewSection(section: Section) {
    section.Identity? || section.Employment? || section.Qualifications? || section.Publications? || section.Contribution?
  }

  /** A slot of the application that the applicant may see. */
  ghost predicate Counts(docs: D.Registry, app: Uuid, id: Uuid) {
    id in docs.slots && docs.slots[id].app == app && D.SafeApplicantSlot(docs.slots[id])
  }

  /** The slot is closed, its last version is accepted if there is one, and something is active if it is required. */
  ghost predicate Settled(docs: D.Registry, id: Uuid)
    requires D.Valid(docs) && id in docs.slots
  {
    var list := docs.slotVersions[id];
    && docs.slots[id].mode == D.Closed
    && (list != [] ==> list[|list| - 1] in docs.versions && docs.versions[list[|list| - 1]].status == D.Accepted)
    && (docs.slots[id].required ==> docs.slots[id].active.Some?)
  }

  lemma SectionReadyIff(c: Core, app: Uuid)
    ensures forall k :: 0 <= k < 5 ==> (SectionReady(c, app, REQUIRED_SECTIONS[k]) <==> ConfirmedAsIs(c, app, REQUIRED_SECTIONS[k]))
    ensures forall section :: ReviewSection(section) <==> exists k :: 0 <= k < 5 && REQUIRED_SECTIONS[k] == section
  {
    assert REQUIRED_SECTIONS[0] == Identity && REQUIRED_SECTIONS[1] == Employment && REQUIRED_SECTIONS[2] == Qualifications;
    assert REQUIRED_SECTIONS[3] == Publications && REQUIRED_SECTIONS[4] == Contribution;
  }

  lemma SettledIff(docs: D.Registry, id: Uuid)
    requires D.Valid(docs) && id in docs.slots
    ensures Settled(docs, id) <==> !SlotUnresolved(docs, docs.slots[id])
  {
    assert D.SlotOk(docs, id);
  }

  /** A submission succeeds exactly if all five sections are confirmed as they are and every slot that counts is settled. */
  lemma SubmitsIff(c: Core, app: Uuid, id: Uuid, now: int)
    requires D.Valid(c.docs)
    ensures SubmitResult(c, app, id, now).Ok? <==>
      && (forall section :: ReviewSection(section) ==> ConfirmedAsIs(c, app, section))
      && (forall slot :: Counts(c.docs, app, slot) ==> Settled(c.docs, slot))
  {
    assert REQUIRED_SECTIONS[..5] == REQUIRED_SECTIONS;
    ReadySections(c, app, 5);
    ReadyDocuments(c.docs, app, c.docs.order);
    SectionReadyIff(c, app);
    forall slot | Counts(c.docs, app, slot) ensures Settled(c.docs, slot) <==> !SlotUnresolved(c.docs, c.docs.slots[slot]) {
      SettledIff(c.docs, slot);
    }
  }

  lemma {:induction false} SectionItems(c: Core, app: Uuid, n: nat, item: Unresolved)
    requires n <= 5
    ensures item in UnresolvedSections(c, app, REQUIRED_SECTIONS[..n]) <==>
            exists k :: 0 <= k < n && item == SectionItem(REQUIRED_SECTIONS[k]) && !SectionReady(c, app, REQUIRED_SECTIONS[k])
  {
    if n > 0 {
      assert REQUIRED_SECTIONS[..n][..n - 1] == REQUIRED_SECTIONS[..n - 1];
      SectionItems(c, app, n - 1, item);
    }
  }

  lemma {:induction false} DocumentItems(docs: D.Registry, app: Uuid, ids: seq<Uuid>, item: Unresolved)
    ensures item in UnresolvedDocuments(docs, app, ids) <==>
            exists id :: id in ids && Listed(docs, app, id) && SlotUnresolved(docs, docs.slots[id]) && item == DocumentItem(docs.slots[id].code)
  {
    if ids != [] {
      var n := |ids| - 1;
      DocumentItems(docs, app, ids[..n], item);
      assert forall id :: id in ids <==> id in ids[..n] || id == ids[n];
    }
  }

  ghost predicate SectionMissing(c: Core, app: Uuid, section: Section) {
    ReviewSection(section) && !ConfirmedAsIs(c, app, section)
  }

  ghost predicate SlotMissing(docs: D.Registry, app: Uuid, id: Uuid)
    requires D.Valid(docs)
  {
    Counts(docs, app, id) && !Settled(docs, id)
  }

  /** A refused submission names exactly the sections and the document codes that stand in its way. */
  lemma BlockedNamesWhatIsMissing(c: Core, app: Uuid, id: Uuid, now: int, item: Unresolved)
    requires D.Valid(c.docs) && SubmitResult(c, app, id, now).Err?
    ensures SubmitResult(c, app, id, now).error.Blocked? && AfterSubmit(c, app, id, now) == c
    ensures item in SubmitResult(c, app, id, now).error.unresolved <==>
      || (item.SectionItem? && SectionMissing(c, app, item.section))
      || (item.DocumentItem? && exists slot :: SlotMissing(c.docs, app, slot) && c.docs.slots[slot].code == item.code)
  {
    assert REQUIRED_SECTIONS[..5] == REQUIRED_SECTIONS;
    SectionItems(c, app, 5, item);
    SectionReadyIff(c, app);
    DocumentItems(c.docs, app, c.docs.order, item);
    forall slot | Counts(c.docs, app, slot) ensures Settled(c.docs, slot) <==> !SlotUnresolved(c.docs, c.docs.slots[slot]) {
      SettledIff(c.docs, slot);
    }
    if item.DocumentItem? && exists slot :: SlotMissing(c.docs, app, slot) && c.docs.slots[slot].code == item.code {
      var slot :| SlotMissing(c.docs, app, slot) && c.docs.slots[slot].code == item.code;
      assert slot in c.docs.order && Listed(c.docs, app, slot);
    }
    if item in UnresolvedDocuments(c.docs, app, c.docs.order) {
      var slot :| slot in c.docs.order && Listed(c.docs, app, slot) && SlotUnresolved(c.docs, c.docs.slots[slot])
                  && item == DocumentItem(c.docs.slots[slot].code);
      assert SlotMissing(c.docs, app, slot);
    }
  }

  // ------------------------------------------------------------------
  // What is confirmed
  // ------------------------------------------------------------------

  /** What the manifest says of a slot: its code and row version, and the number and plaintext of its active version. */
  ghost predicate Describes(docs: D.Registry, id: Uuid, e: DocumentEntry) {
    && id in docs.slots && docs.slots[id].active == Some(e.version) && e.version in docs.versions
    && e.code == docs.slots[id].code && e.slotRow == docs.slots[id].rowVersion
    && e.number == docs.versions[e.version].number && e.plaintext == docs.versions[e.version].record.plaintextHash
  }

  /** The entries describe exactly the slots that count and hold an active version, in the order of the slots. */
  ghost predicate DescribesAll(docs: D.Registry, app: Uuid, entries: map<Uuid, DocumentEntry>) {
    && (forall id :: id in entries <==> Counts(docs, app, id) && docs.slots[id].active.Some?)
    && forall id :: id in entries ==> Describes(docs, id, entries[id])
  }

  ghost predicate ManifestOfNow(c: Core, app: Uuid, m: Manifest) {
    && |m.sections| == 5
    && (forall k :: 0 <= k < 5 ==>
          && var key := (app, REQUIRED_SECTIONS[k]);
             && key in c.drafts.drafts
             && m.sections[k] == SectionEntry(REQUIRED_SECTIONS[k], c.drafts.drafts[key].rowVersion, ContentHash(c.drafts.drafts[key].values)))
    && exists entries :: DescribesAll(c.docs, app, entries) && m.documents == Collected(c.docs.order, entries)
  }

  lemma ReadyManifest(c: Core, app: Uuid)
    requires D.Valid(c.docs) && Ready(c, app)
    ensures ManifestOfNow(c, app, ManifestOf(c, app))
  {
    assert REQUIRED_SECTIONS[..5] == REQUIRED_SECTIONS;
    ReadySections(c, app, 5);
    ReadyDocuments(c.docs, app, c.docs.order);
    var docs := c.docs;
    var entries := map id | id in docs.slots && Listed(docs, app, id) && docs.slots[id].active.Some?
                            && docs.slots[id].active.value in docs.versions
      :: EntryOf(docs.slots[id], docs.versions[docs.slots[id].active.value]);
    forall id | Counts(docs, app, id) && docs.slots[id].active.Some? ensures id in entries && Describes(docs, id, entries[id]) {
      ReadySlot(docs, app, id);
    }
    FreshDocuments(docs, app, entries, |docs.order|);
    assert docs.order[..|docs.order|] == docs.order;
    assert DescribesAll(docs, app, entries);
  }

  /**
   * A successful submission either returns a confirmation that still stands and has the manifest of now, and changes
   * nothing; or it appends a confirmation of now, locks the application with no section reopened, and is audited.
   */
  lemma SubmissionConfirmsNow(c: Core, app: Uuid, id: Uuid, now: int)
    requires D.Valid(c.docs) && SubmitResult(c, app, id, now).Ok?
    ensures var f, c' := SubmitResult(c, app, id, now).value, AfterSubmit(c, app, id, now);
      && f.app == app && !f.superseded
      && ManifestOfNow(c, app, f.hash.content)
      && (c' == c ==> f in c.finals)
      && (c' != c ==>
            && c'.finals == c.finals + [f] && f.id == id && f.confirmedAt == now && f.manifest == f.hash.content
            && c'.docs == c.docs && c'.confirmed == c.confirmed && c'.drafts.drafts == c.drafts.drafts
            && c'.drafts.corrections == c.drafts.corrections
            && c'.drafts.locked == c.drafts.locked + {app} && ReopenedSections(c'.drafts, app) == {}
            && (forall a :: a != app ==> ReopenedSections(c'.drafts, a) == ReopenedSections(c.drafts, a))
            && c'.audit == c.audit + [AuditEvent(app, "FINAL_SUBMISSION", "APPLICANT", "", "", now)])
  {
    ReadyManifest(c, app);
    if Resubmission(c, app) { var i := ActiveIs(c.finals, app); }
  }

  lemma {:induction false} CollectedMember(order: seq<Uuid>, entries: map<Uuid, DocumentEntry>, id: Uuid)
    requires id in order && id in entries
    ensures entries[id] in Collected(order, entries)
  {
    var n := |order| - 1;
    if order[n] != id { CollectedMember(order[..n], entries, id); }
  }

  /** No required document is missing from what is confirmed. */
  lemma RequiredDocumentsAreConfirmed(c: Core, app: Uuid, id: Uuid, now: int, slot: Uuid)
    requires D.Valid(c.docs) && SubmitResult(c, app, id, now).Ok?
    requires Counts(c.docs, app, slot) && c.docs.slots[slot].required
    ensures exists e :: e in SubmitResult(c, app, id, now).value.hash.content.documents && Describes(c.docs, slot, e)
  {
    SubmitsIff(c, app, id, now);
    SubmissionConfirmsNow(c, app, id, now);
    assert Settled(c.docs, slot);
    var m := SubmitResult(c, app, id, now).value.hash.content;
    var entries :| DescribesAll(c.docs, app, entries) && m.documents == Collected(c.docs.order, entries);
    CollectedMember(c.docs.order, entries, slot);
  }

  // ------------------------------------------------------------------
  // Reopening
  // ------------------------------------------------------------------

  /** The request is an administrator's, with name and reason, and the application has a confirmation that still stands. */
  ghost predicate MayReopen(c: Core, app: Uuid, reason: string, actor: string, group: string) {
    && group == "EHF-Administrators" && actor != "" && reason != ""
    && exists i :: 0 <= i < |c.finals| && c.finals[i].app == app && !c.finals[i].superseded
  }

  /** The last confirmation of the application that stood is superseded, and no other changes. */
  ghost predicate LastSuperseded(a: seq<FinalConfirmation>, b: seq<FinalConfirmation>, app: Uuid, i: nat) {
    && i < |a| && a[i].app == app && !a[i].superseded
    && (forall j :: i < j < |a| && a[j].app == app ==> a[j].superseded)
    && b == a[i := a[i].(superseded := true)]
  }

  lemma SupersededIs(finals: seq<FinalConfirmation>, next: Uuid, app: Uuid) returns (i: nat)
    requires Active(finals, app).Some? && FinalIdsOk(finals, next)
    ensures LastSuperseded(finals, Superseded(finals, Active(finals, app).value.id), app, i)
  {
    i := ActiveIs(finals, app);
    var after := Superseded(finals, finals[i].id);
    forall j | 0 <= j < |finals| ensures after[j] == finals[i := finals[i].(superseded := true)][j] {
      assert i != j ==> finals[j].id != finals[i].id;
    }
  }

  lemma StandsIff(finals: seq<FinalConfirmation>, app: Uuid)
    ensures Active(finals, app).Some? <==> exists i :: 0 <= i < |finals| && finals[i].app == app && !finals[i].superseded
  {
    if Active(finals, app).Some? { var i := ActiveIs(finals, app); } else { ActiveNone(finals, app); }
  }

  /**
   * A section is reopened exactly on such a request for one of the five sections of a locked application; then its
   * confirmation is withdrawn, it may be saved again, the standing confirmation is superseded, and all else stays.
   */
  lemma ReopenSectionIff(s: System, app: Uuid, section: Section, reason: string, actor: string, group: string, now: int)
    requires Inv(s)
    ensures var c, c' := s.core, AfterReopenSection(s.core, app, section, reason, actor, group, now);
      && (ReopenSectionResult(c, app, section, reason, actor, group).Ok? <==> MayReopen(c, app, reason, actor, group) && ReviewSection(section))
      && (ReopenSectionResult(c, app, section, reason, actor, group).Ok? ==>
            && c'.confirmed == c.confirmed - {(app, section)} && c'.docs == c.docs
            && c'.drafts.drafts == c.drafts.drafts && c'.drafts.locked == c.drafts.locked
            && (forall a, sec :: sec in ReopenedSections(c'.drafts, a) <==> sec in ReopenedSections(c.drafts, a) || (a == app && sec == section))
            && (exists i :: LastSuperseded(c.finals, c'.finals, app, i))
            && c'.audit == c.audit + [AuditEvent(app, "SECTION_REOPENED", actor, SectionName(section), reason, now)])
  {
    var c, c' := s.core, AfterReopenSection(s.core, app, section, reason, actor, group, now);
    SectionReadyIff(c, app);
    StandsIff(c.finals, app);
    if MayReopen(c, app, reason, actor, group) && ReviewSection(section) {
      var k := ActiveIs(c.finals, app);
      assert FinalOk(c, k);
      var i := SupersededIs(c.finals, s.next, app);
      assert LastSuperseded(c.finals, c'.finals, app, i);
      assert c'.audit == c.audit + [AuditEvent(app, "SECTION_REOPENED", actor, SectionName(section), reason, now)];
    }
  }

  function OpenForReplacement(slot: D.Slot): D.Slot {
    slot.(mode := D.Replacement, rowVersion := slot.rowVersion + 1)
  }

  /** The same for a slot that counts, which is then open for a replacement, one row version on. */
  lemma ReopenSlotIff(s: System, app: Uuid, slot: Uuid, reason: string, actor: string, group: string, now: int)
    requires Inv(s)
    ensures var c, c' := s.core, AfterReopenSlot(s.core, app, slot, reason, actor, group, now);
      && (ReopenSlotResult(c, app, slot, reason, actor, group).Ok? <==> MayReopen(c, app, reason, actor, group) && Counts(c.docs, app, slot))
      && (ReopenSlotResult(c, app, slot, reason, actor, group).Ok? ==>
            && c'.confirmed == c.confirmed && c'.drafts == c.drafts
            && ReopenSlotResult(c, app, slot, reason, actor, group).value == OpenForReplacement(c.docs.slots[slot])
            && c'.docs == c.docs.(slots := c.docs.slots[slot := OpenForReplacement(c.docs.slots[slot])])
            && (exists i :: LastSuperseded(c.finals, c'.finals, app, i))
            && c'.audit == c.audit + [AuditEvent(app, "DOCUMENT_SLOT_REOPENED", actor, c.docs.slots[slot].code, reason, now)])
  {
    var c, c' := s.core, AfterReopenSlot(s.core, app, slot, reason, actor, group, now);
    StandsIff(c.finals, app);
    if MayReopen(c, app, reason, actor, group) && Counts(c.docs, app, slot) {
      var i := SupersededIs(c.finals, s.next, app);
      assert LastSuperseded(c.finals, c'.finals, app, i);
    }
  }

  // ------------------------------------------------------------------
  // Which values are confirmed, and which sections may be saved, read off the events
  // ------------------------------------------------------------------

  /** What the last confirmation of the section confirmed, unless the section has been reopened since. */
  ghost function ConfirmedBy(events: seq<Action>, app: Uuid, section: Section): Option<Values> {
    if events == [] then None
    else
      var prior, e := events[..|events| - 1], events[|events| - 1];
      var s := Run(prior);
      if e.ConfirmSection? && e.app == app && e.section == section && e.valid
         && (app, section) in s.core.drafts.drafts && s.core.drafts.drafts[(app, section)].rowVersion == e.version
      then Some(s.core.drafts.drafts[(app, section)].values)
      else if e.ReopenSection? && e.app == app && e.section == section && ReviewSection(section)
              && MayReopen(s.core, app, e.reason, e.actor, e.group) then None
      else ConfirmedBy(prior, app, section)
  }

  /** In every reachable state the stored confirmations are those: of the values confirmed last and not withdrawn. */
  lemma {:induction false} ConfirmationsAreThoseMade(events: seq<Action>, app: Uuid, section: Section)
    ensures var confirmed := Run(events).core.confirmed;
      && ((app, section) in confirmed <==> ConfirmedBy(events, app, section).Some?)
      && ((app, section) in confirmed ==> confirmed[(app, section)].hash == ContentHash(ConfirmedBy(events, app, section).value))
  {
    if events != [] {
      var prior, e := events[..|events| - 1], events[|events| - 1];
      ConfirmationsAreThoseMade(prior, app, section);
      Reachable(prior);
      ConfirmationsAfterStep(Run(prior), e, app, section);
    }
  }

  lemma ConfirmationsAfterStep(s: System, e: Action, app: Uuid, section: Section)
    requires Inv(s)
    ensures var c, c', key := s.core, Step(s, e).core, (app, section);
      if e.ConfirmSection? && e.app == app && e.section == section && e.valid
         && key in c.drafts.drafts && c.drafts.drafts[key].rowVersion == e.version
      then key in c'.confirmed && c'.confirmed[key].hash == ContentHash(c.drafts.drafts[key].values)
      else if e.ReopenSection? && e.app == app && e.section == section && ReviewSection(section)
              && MayReopen(c, app, e.reason, e.actor, e.group) then key !in c'.confirmed
      else (key in c'.confirmed <==> key in c.confirmed) && (key in c.confirmed ==> c'.confirmed[key] == c.confirmed[key])
  {
    var c := s.core;
    if e.ReopenSection? {
      SectionReadyIff(c, e.app);
      StandsIff(c.finals, e.app);
    } else if e.ConfirmSection? && ConfirmAccepted(c, e) {
      assert c.drafts.drafts[(e.app, e.section)].app == e.app;
    }
  }
}
