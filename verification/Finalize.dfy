/** Final submission bound to a manifest of drafts, confirmations and documents (app/applicant/finalize.py). */
module Finalize {
  import opened Base
  import opened ObjectTypes
  import opened Drafts
  import opened Confirmations
  import Documents

  const REQUIRED_SECTIONS: seq<Section> := [Identity, Employment, Qualifications, Publications, Contribution]
  const ADMINISTRATOR_GROUP := "EHF-Administrators"

  datatype SectionEntry = SectionEntry(section: Section, rowVersion: nat, hash: ContentHash)

  datatype DocumentEntry = DocumentEntry(
    code: string, slotRow: nat, version: Uuid, number: nat, plaintext: PlaintextHash)

  datatype Manifest = Manifest(sections: seq<SectionEntry>, documents: seq<DocumentEntry>)

  /** SHA-256 of the manifest's canonical JSON, taken as injective. */
  datatype ManifestHash = ManifestHash(content: Manifest)

  datatype Unresolved = SectionItem(section: Section) | DocumentItem(code: string) | FinalConfirmationItem

  datatype FinalConfirmation = FinalConfirmation(
    id: Uuid, app: Uuid, manifest: Manifest, hash: ManifestHash, confirmedAt: int, superseded: bool)

  datatype AuditEvent = AuditEvent(
    app: Uuid, action: string, actor: string, scope: string, reason: string, at: int)

  datatype FinalError =
    | Blocked(unresolved: seq<Unresolved>)
    | PermissionDenied
    | InvalidRequest
    | DraftFailure(draft: DraftError)
    | DocumentFailure(document: Documents.DocumentError)

  /** The stores that final submission reads and changes. */
  datatype Core = Core(
    drafts: Store,
    confirmed: Confirmed,
    docs: Documents.Registry,
    finals: seq<FinalConfirmation>,
    audit: seq<AuditEvent>)

  // ------------------------------------------------------------------
  // The manifest
  // ------------------------------------------------------------------

  predicate SectionReady(c: Core, app: Uuid, section: Section) {
    (app, section) in c.drafts.drafts && IsCurrent(c.confirmed, app, section, c.drafts.drafts[(app, section)])
  }

  function SectionEntries(c: Core, app: Uuid, sections: seq<Section>): seq<SectionEntry> {
    if sections == [] then []
    else
      var n := |sections| - 1;
      SectionEntries(c, app, sections[..n]) +
      if SectionReady(c, app, sections[n])
      then [SectionEntry(sections[n], c.drafts.drafts[(app, sections[n])].rowVersion, c.confirmed[(app, sections[n])].hash)]
      else []
  }

  function UnresolvedSections(c: Core, app: Uuid, sections: seq<Section>): seq<Unresolved> {
    if sections == [] then []
    else
      var n := |sections| - 1;
      UnresolvedSections(c, app, sections[..n]) +
      if SectionReady(c, app, sections[n]) then [] else [SectionItem(sections[n])]
  }

  predicate Listed(docs: Documents.Registry, app: Uuid, id: Uuid) {
    id in docs.slots && docs.slots[id].app == app && Documents.SafeApplicantSlot(docs.slots[id])
  }

  /** The slot is open, its last version is undecided or rejected, or it is required and holds nothing. */
  predicate SlotUnresolved(docs: Documents.Registry, slot: Documents.Slot) {
    var latest := Documents.LatestVersion(docs, slot.id);
    || slot.mode != Documents.Closed
    || (latest.Some? && latest.value.status != Documents.Accepted)
    || (slot.required && Documents.ActiveVersion(docs, slot).None?)
  }

  function EntryOf(slot: Documents.Slot, version: Documents.Version): DocumentEntry {
    DocumentEntry(slot.code, slot.rowVersion, version.id, version.number, version.record.plaintextHash)
  }

  function SlotEntry(docs: Documents.Registry, app: Uuid, id: Uuid): seq<DocumentEntry> {
    if !Listed(docs, app, id) || SlotUnresolved(docs, docs.slots[id]) then []
    else match Documents.ActiveVersion(docs, docs.slots[id])
      case None => []
      case Some(version) => [EntryOf(docs.slots[id], version)]
  }

  function DocumentEntries(docs: Documents.Registry, app: Uuid, ids: seq<Uuid>): seq<DocumentEntry> {
    if ids == [] then []
    else DocumentEntries(docs, app, ids[..|ids| - 1]) + SlotEntry(docs, app, ids[|ids| - 1])
  }

  function UnresolvedDocuments(docs: Documents.Registry, app: Uuid, ids: seq<Uuid>): seq<Unresolved> {
    if ids == [] then []
    else
      var id := ids[|ids| - 1];
      UnresolvedDocuments(docs, app, ids[..|ids| - 1]) +
      if Listed(docs, app, id) && SlotUnresolved(docs, docs.slots[id]) then [DocumentItem(docs.slots[id].code)] else []
  }

  function ManifestOf(c: Core, app: Uuid): Manifest {
    Manifest(SectionEntries(c, app, REQUIRED_SECTIONS), DocumentEntries(c.docs, app, c.docs.order))
  }

  function UnresolvedOf(c: Core, app: Uuid): seq<Unresolved> {
    UnresolvedSections(c, app, REQUIRED_SECTIONS) + UnresolvedDocuments(c.docs, app, c.docs.order)
  }

  // ------------------------------------------------------------------
  // The steps
  // ------------------------------------------------------------------

  /** The last confirmation of the application that nothing superseded. */
  function Active(finals: seq<FinalConfirmation>, app: Uuid): Option<FinalConfirmation> {
    if finals == [] then None
    else
      var last := finals[|finals| - 1];
      if last.app == app && !last.superseded then Some(last) else Active(finals[..|finals| - 1], app)
  }

  function Superseded(finals: seq<FinalConfirmation>, id: Uuid): seq<FinalConfirmation> {
    seq(|finals|, i requires 0 <= i < |finals| =>
      if finals[i].id == id then finals[i].(superseded := true) else finals[i])
  }

  function Confirmation(c: Core, app: Uuid, id: Uuid, now: int): FinalConfirmation {
    FinalConfirmation(id, app, ManifestOf(c, app), ManifestHash(ManifestOf(c, app)), now, false)
  }

  predicate Resubmission(c: Core, app: Uuid) {
    Active(c.finals, app).Some? && Active(c.finals, app).value.hash == ManifestHash(ManifestOf(c, app))
  }

  function SubmitResult(c: Core, app: Uuid, id: Uuid, now: int): Result<FinalConfirmation, FinalError> {
    if UnresolvedOf(c, app) != [] then Err(Blocked(UnresolvedOf(c, app)))
    else if Resubmission(c, app) then Ok(Active(c.finals, app).value)
    else Ok(Confirmation(c, app, id, now))
  }

  function AfterSubmit(c: Core, app: Uuid, id: Uuid, now: int): Core {
    if UnresolvedOf(c, app) != [] || Resubmission(c, app) then c
    else c.(finals := c.finals + [Confirmation(c, app, id, now)],
            drafts := AfterLock(c.drafts, app),
            audit := c.audit + [AuditEvent(app, "FINAL_SUBMISSION", "APPLICANT", "", "", now)])
  }

  function AfterSupersede(c: Core, app: Uuid): Core {
    match Active(c.finals, app)
    case None => c
    case Some(active) => c.(finals := Superseded(c.finals, active.id))
  }

  function ReopenSectionError(c: Core, app: Uuid, section: Section, reason: string, actor: string, group: string)
    : Option<FinalError>
  {
    if group != ADMINISTRATOR_GROUP then Some(PermissionDenied)
    else if section !in REQUIRED_SECTIONS || actor == "" || reason == "" then Some(InvalidRequest)
    else if Active(c.finals, app).None? then Some(Blocked([FinalConfirmationItem]))
    else None
  }

  function ReopenSectionResult(c: Core, app: Uuid, section: Section, reason: string, actor: string, group: string)
    : Result<(), FinalError>
  {
    match ReopenSectionError(c, app, section, reason, actor, group)
    case Some(e) => Err(e)
    case None => if app in c.drafts.locked then Ok(()) else Err(DraftFailure(NotLocked))
  }

  function AfterReopenSection(
    c: Core, app: Uuid, section: Section, reason: string, actor: string, group: string, now: int): Core
  {
    if ReopenSectionError(c, app, section, reason, actor, group).Some? then c
    else
      var c' := AfterSupersede(c, app).(confirmed := AfterInvalidate(c.confirmed, app, section),
                                        drafts := AfterReopen(c.drafts, app, section));
      if app in c.drafts.locked
      then c'.(audit := c.audit + [AuditEvent(app, "SECTION_REOPENED", actor, SectionName(section), reason, now)])
      else c'
  }

  function SectionName(section: Section): string {
    match section
    case Identity => "identity"
    case Employment => "employment"
    case Qualifications => "qualifications"
    case Publications => "publications"
    case Contribution => "contribution"
    case OtherSection(name) => name
  }

  function ReopenSlotError(c: Core, app: Uuid, reason: string, actor: string, group: string): Option<FinalError> {
    if group != ADMINISTRATOR_GROUP then Some(PermissionDenied)
    else if actor == "" || reason == "" then Some(InvalidRequest)
    else if Active(c.finals, app).None? then Some(Blocked([FinalConfirmationItem]))
    else None
  }

  function ReopenSlotResult(c: Core, app: Uuid, slot: Uuid, reason: string, actor: string, group: string)
    : Result<Documents.Slot, FinalError>
  {
    match ReopenSlotError(c, app, reason, actor, group)
    case Some(e) => Err(e)
    case None =>
      match Documents.OpenError(c.docs, app, slot, Documents.Replacement, actor, reason)
      case Some(e) => Err(DocumentFailure(e))
      case None => Ok(Documents.AfterOpen(c.docs, app, slot, Documents.Replacement, actor, reason).slots[slot])
  }

  function AfterReopenSlot(c: Core, app: Uuid, slot: Uuid, reason: string, actor: string, group: string, now: int): Core {
    if ReopenSlotError(c, app, reason, actor, group).Some? then c
    else
      var c' := AfterSupersede(c, app).(
        docs := Documents.AfterOpen(c.docs, app, slot, Documents.Replacement, actor, reason));
      if Documents.OpenError(c.docs, app, slot, Documents.Replacement, actor, reason).Some? then c'
      else c'.(audit := c.audit + [AuditEvent(app, "DOCUMENT_SLOT_REOPENED", actor, c.docs.slots[slot].code, reason, now)])
  }

  // ------------------------------------------------------------------
  // The service
  // ------------------------------------------------------------------

  class FinalizationService {
    const drafts: InMemoryDraftRepository
    const sectionConfirmations: SectionConfirmationService
    const documentSlots: Documents.DocumentSlotRepository
    var confirmations: seq<FinalConfirmation>
    var auditEvents: seq<AuditEvent>

    ghost function View(): Core
      reads this, drafts, sectionConfirmations, documentSlots
    {
      Core(drafts.View(), sectionConfirmations.confirmations, documentSlots.View(), confirmations, auditEvents)
    }

    constructor (drafts: InMemoryDraftRepository, sectionConfirmations: SectionConfirmationService,
                 documentSlots: Documents.DocumentSlotRepository)
      ensures this.drafts == drafts && this.sectionConfirmations == sectionConfirmations
      ensures this.documentSlots == documentSlots
      ensures View() == Core(drafts.View(), sectionConfirmations.confirmations, documentSlots.View(), [], [])
    {
      this.drafts, this.sectionConfirmations, this.documentSlots := drafts, sectionConfirmations, documentSlots;
      confirmations, auditEvents := [], [];
    }

    method CollectSections(app: Uuid) returns (entries: seq<SectionEntry>, unresolved: seq<Unresolved>)
      ensures entries == SectionEntries(View(), app, REQUIRED_SECTIONS)
      ensures unresolved == UnresolvedSections(View(), app, REQUIRED_SECTIONS)
    {
      entries, unresolved := [], [];
      for i := 0 to |REQUIRED_SECTIONS|
        invariant entries == SectionEntries(View(), app, REQUIRED_SECTIONS[..i])
        invariant unresolved == UnresolvedSections(View(), app, REQUIRED_SECTIONS[..i])
      {
        var section := REQUIRED_SECTIONS[i];
        assert REQUIRED_SECTIONS[..i + 1][..i] == REQUIRED_SECTIONS[..i];
        var snapshot := drafts.Load(app, section);
        var confirmation := sectionConfirmations.Current(app, section);
        var current := false;
        if snapshot.Some? {
          current := sectionConfirmations.CheckCurrent(app, section, snapshot.value);
        }
        if snapshot.None? || confirmation.None? || !current {
          unresolved := unresolved + [SectionItem(section)];
          continue;
        }
        entries := entries + [SectionEntry(section, snapshot.value.rowVersion, confirmation.value.hash)];
      }
      assert REQUIRED_SECTIONS[..|REQUIRED_SECTIONS|] == REQUIRED_SECTIONS;
    }

    method CollectDocuments(app: Uuid) returns (entries: seq<DocumentEntry>, unresolved: seq<Unresolved>)
      requires Documents.Valid(documentSlots.View())
      ensures entries == DocumentEntries(documentSlots.View(), app, documentSlots.order)
      ensures unresolved == UnresolvedDocuments(documentSlots.View(), app, documentSlots.order)
    {
      entries, unresolved := [], [];
      ghost var docs := documentSlots.View();
      var order := documentSlots.order;
      for i := 0 to |order|
        invariant entries == DocumentEntries(docs, app, order[..i])
        invariant unresolved == UnresolvedDocuments(docs, app, order[..i])
      {
        SlotsOneMore(docs, app, order, i);
        var entry, item := CollectSlot(app, order[i]);
        entries, unresolved := entries + entry, unresolved + item;
      }
      assert order[..|order|] == order;
    }

    static lemma SlotsOneMore(docs: Documents.Registry, app: Uuid, order: seq<Uuid>, i: nat)
      requires i < |order|
      ensures DocumentEntries(docs, app, order[..i + 1]) == DocumentEntries(docs, app, order[..i]) + SlotEntry(docs, app, order[i])
      ensures UnresolvedDocuments(docs, app, order[..i + 1])
              == UnresolvedDocuments(docs, app, order[..i])
                 + if Listed(docs, app, order[i]) && SlotUnresolved(docs, docs.slots[order[i]])
                   then [DocumentItem(docs.slots[order[i]].code)] else []
    {
      assert order[..i + 1][..i] == order[..i];
    }

    /** What one slot contributes: an unresolved item, an entry, or nothing. */
    method CollectSlot(app: Uuid, id: Uuid) returns (entry: seq<DocumentEntry>, item: seq<Unresolved>)
      requires Documents.Valid(documentSlots.View()) && id in documentSlots.slots
      ensures entry == SlotEntry(documentSlots.View(), app, id)
      ensures item == if Listed(documentSlots.View(), app, id) && SlotUnresolved(documentSlots.View(), documentSlots.slots[id])
                      then [DocumentItem(documentSlots.slots[id].code)] else []
    {
      entry, item := [], [];
      var slot := documentSlots.slots[id];
      if slot.app != app || !Documents.SafeApplicantSlot(slot) {
        return;
      }
      var open, version := InspectSlot(id);
      if open {
        item := [DocumentItem(slot.code)];
        return;
      }
      if version.None? {
        return;
      }
      entry := [EntryOf(slot, version.value)];
    }

    method InspectSlot(id: Uuid) returns (unresolved: bool, version: Option<Documents.Version>)
      requires Documents.Valid(documentSlots.View()) && id in documentSlots.slots
      ensures unresolved == SlotUnresolved(documentSlots.View(), documentSlots.slots[id])
      ensures version == Documents.ActiveVersion(documentSlots.View(), documentSlots.slots[id])
    {
      var slot := documentSlots.slots[id];
      assert Documents.SlotOk(documentSlots.View(), id);
      version := None;
      if slot.active.Some? && slot.active.value in documentSlots.versions
         && documentSlots.versions[slot.active.value].slot == slot.id {
        version := Some(documentSlots.versions[slot.active.value]);
      }
      var versions := documentSlots.slotVersions[slot.id];
      var unresolvedUpload := slot.mode != Documents.Closed;
      if versions != [] {
        var latest := documentSlots.versions[versions[|versions| - 1]];
        unresolvedUpload := unresolvedUpload || latest.status != Documents.Accepted;
      }
      unresolved := unresolvedUpload || (slot.required && version.None?);
    }

    method FindActive(app: Uuid) returns (r: Option<FinalConfirmation>)
      ensures r == Active(confirmations, app)
    {
      var i := |confirmations|;
      assert confirmations[..i] == confirmations;
      while i > 0
        invariant 0 <= i <= |confirmations|
        invariant Active(confirmations, app) == Active(confirmations[..i], app)
      {
        assert confirmations[..i][..i - 1] == confirmations[..i - 1];
        i := i - 1;
        if confirmations[i].app == app && !confirmations[i].superseded {
          return Some(confirmations[i]);
        }
      }
      return None;
    }

    method Submit(app: Uuid, freshId: Uuid, now: int) returns (r: Result<FinalConfirmation, FinalError>)
      requires Documents.Valid(documentSlots.View())
      modifies this, drafts
      ensures View() == AfterSubmit(old(View()), app, freshId, now)
      ensures r == SubmitResult(old(View()), app, freshId, now)
    {
      var sections, unresolvedSections := CollectSections(app);
      var documents, unresolvedDocuments := CollectDocuments(app);
      var manifest, unresolved := Manifest(sections, documents), unresolvedSections + unresolvedDocuments;
      if unresolved != [] {
        return Err(Blocked(unresolved));
      }
      var manifestHash := ManifestHash(manifest);
      var active := FindActive(app);
      if active.Some? && active.value.hash == manifestHash {
        return Ok(active.value);
      }
      var confirmation := FinalConfirmation(freshId, app, manifest, manifestHash, now, false);
      confirmations := confirmations + [confirmation];
      drafts.Lock(app);
      auditEvents := auditEvents + [AuditEvent(app, "FINAL_SUBMISSION", "APPLICANT", "", "", now)];
      return Ok(confirmation);
    }

    method SupersedeActive(app: Uuid) returns (r: Result<(), FinalError>)
      modifies this
      ensures View() == AfterSupersede(old(View()), app)
      ensures r == if Active(old(confirmations), app).None? then Err(Blocked([FinalConfirmationItem])) else Ok(())
    {
      var active := FindActive(app);
      if active.None? {
        return Err(Blocked([FinalConfirmationItem]));
      }
      confirmations := Superseded(confirmations, active.value.id);
      return Ok(());
    }

    method ReopenSection(app: Uuid, section: Section, reason: string, actor: string, group: string, now: int)
      returns (r: Result<(), FinalError>)
      modifies this, drafts, sectionConfirmations
      ensures View() == AfterReopenSection(old(View()), app, section, reason, actor, group, now)
      ensures r == ReopenSectionResult(old(View()), app, section, reason, actor, group)
    {
      if group != ADMINISTRATOR_GROUP {
        return Err(PermissionDenied);
      }
      if section !in REQUIRED_SECTIONS || actor == "" || reason == "" {
        return Err(InvalidRequest);
      }
      var superseded := SupersedeActive(app);
      if superseded.Err? {
        return superseded;
      }
      sectionConfirmations.Invalidate(app, section);
      var reopened := drafts.Reopen(app, section);
      if reopened.Err? {
        return Err(DraftFailure(reopened.error));
      }
      auditEvents := auditEvents + [AuditEvent(app, "SECTION_REOPENED", actor, SectionName(section), reason, now)];
      return Ok(());
    }

    method ReopenDocumentSlot(app: Uuid, slot: Uuid, reason: string, actor: string, group: string, now: int)
      returns (r: Result<Documents.Slot, FinalError>)
      requires Documents.Valid(documentSlots.View())
      modifies this, documentSlots
      ensures View() == AfterReopenSlot(old(View()), app, slot, reason, actor, group, now)
      ensures r == ReopenSlotResult(old(View()), app, slot, reason, actor, group)
    {
      if group != ADMINISTRATOR_GROUP {
        return Err(PermissionDenied);
      }
      if actor == "" || reason == "" {
        return Err(InvalidRequest);
      }
      var superseded := SupersedeActive(app);
      if superseded.Err? {
        return Err(superseded.error);
      }
      var reopened := documentSlots.OpenSlot(app, slot, Documents.Replacement, actor, reason);
      if reopened.Err? {
        return Err(DocumentFailure(reopened.error));
      }
      auditEvents := auditEvents +
        [AuditEvent(app, "DOCUMENT_SLOT_REOPENED", actor, reopened.value.code, reason, now)];
      return Ok(reopened.value);
    }
  }
}
