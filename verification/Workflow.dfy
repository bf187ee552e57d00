/**
 * The applicant submission workflow as one transition system: autosave, confirmation, final submission, narrow
 * reopening and document upload act on four stores, in any order and for any number of applications.
 */
module Workflow {
  import opened Base
  import opened ObjectTypes
  import opened Drafts
  import opened Confirmations
  import opened Finalize
  import D = Documents

  /** `next` supplies fresh identifiers; `tickets` are the uploads in flight, by the version they would create. */
  datatype System = System(core: Core, tickets: map<Uuid, D.Ticket>, next: Uuid)

  const INITIAL := System(Core(Drafts.EMPTY, map[], D.EMPTY, [], []), map[], 0)

  datatype Action =
    | SaveSection(app: Uuid, section: Section, fields: seq<Field>, expected: Option<nat>, source: Source)
    | ConfirmSection(app: Uuid, section: Section, version: nat, valid: bool)
    | Submit(app: Uuid, now: int)
    | ReopenSection(app: Uuid, section: Section, reason: string, actor: string, group: string, now: int)
    | ReopenSlot(app: Uuid, slot: Uuid, reason: string, actor: string, group: string, now: int)
    | AddSlot(app: Uuid, spec: D.SlotSpec)
    | BeginUpload(app: Uuid, slot: Uuid, row: nat)
    | RegisterUpload(ticket: Uuid, record: StoredObjectRecord, name: string)
    | AbandonUpload(ticket: Uuid)
    | Decide(decision: D.Decision)

  predicate SaveAccepted(c: Core, e: Action)
    requires e.SaveSection?
  {
    // Validation knows the five review sections only.
    e.section in REQUIRED_SECTIONS && SaveError(c.drafts, e.app, e.section, e.expected, e.source).None?
  }

  predicate ConfirmAccepted(c: Core, e: Action)
    requires e.ConfirmSection?
  {
    && (e.app, e.section) in c.drafts.drafts
    && c.drafts.drafts[(e.app, e.section)].rowVersion == e.version
    && e.valid
  }

  function Step(s: System, e: Action): System {
    var c := s.core;
    match e
    case SaveSection(app, section, fields, expected, source) =>
      if SaveAccepted(c, e) then s.(core := c.(drafts := AfterSave(c.drafts, app, section, fields, expected, source))) else s
    case ConfirmSection(app, section, version, valid) =>
      if ConfirmAccepted(c, e)
      then s.(core := c.(confirmed := AfterConfirm(c.confirmed, app, section, c.drafts.drafts[(app, section)]))) else s
    case Submit(app, now) =>
      var c' := AfterSubmit(c, app, s.next, now);
      if |c'.finals| == |c.finals| then s.(core := c') else s.(core := c', next := s.next + 1)
    case ReopenSection(app, section, reason, actor, group, now) =>
      s.(core := AfterReopenSection(c, app, section, reason, actor, group, now))
    case ReopenSlot(app, slot, reason, actor, group, now) =>
      s.(core := AfterReopenSlot(c, app, slot, reason, actor, group, now))
    case AddSlot(app, spec) => s.(core := c.(docs := D.AfterAdd(c.docs, s.next, app, spec)), next := s.next + 1)
    case BeginUpload(app, slot, row) =>
      if D.UploadAllowed(c.docs, app, slot, row)
      then s.(tickets := s.tickets[s.next := D.TicketFor(c.docs, slot, row, s.next)], next := s.next + 3) else s
    case RegisterUpload(ticket, record, name) =>
      if ticket in s.tickets && (s.tickets[ticket].slot.id in c.docs.slots ==> s.tickets[ticket].slot.id in c.docs.slotVersions)
      then s.(core := c.(docs := D.AfterRegister(c.docs, s.tickets[ticket], record, name)), tickets := s.tickets - {ticket})
      else s
    case AbandonUpload(ticket) => s.(tickets := s.tickets - {ticket})
    case Decide(decision) => s.(core := c.(docs := D.AfterDecision(c.docs, decision)))
  }

  function RunFrom(s: System, events: seq<Action>): System {
    if events == [] then s else Step(RunFrom(s, events[..|events| - 1]), events[|events| - 1])
  }

  function Run(events: seq<Action>): System {
    RunFrom(INITIAL, events)
  }

  // ------------------------------------------------------------------
  // How a stored manifest relates to the present state
  // ------------------------------------------------------------------

  function Row(c: Core, app: Uuid, k: nat): nat
    requires k < 5
  {
    RowOf(c.drafts, app, REQUIRED_SECTIONS[k])
  }

  function HashOf(c: Core, app: Uuid, k: nat): ContentHash
    requires k < 5
  {
    CanonicalHash(ValuesOf(c.drafts, app, REQUIRED_SECTIONS[k]), Row(c, app, k))
  }

  /** The five entries are of the five sections, none is ahead of its draft, and one that is level has its content. */
  ghost predicate SectionsBelow(c: Core, app: Uuid, entries: seq<SectionEntry>) {
    && |entries| == 5
    && forall k :: 0 <= k < 5 ==>
         && entries[k].section == REQUIRED_SECTIONS[k]
         && 1 <= entries[k].rowVersion <= Row(c, app, k)
         && (entries[k].rowVersion == Row(c, app, k) ==> entries[k].hash == HashOf(c, app, k))
  }

  /** The entries of a map from slots, in the order of the slots. */
  function Collected(order: seq<Uuid>, entries: map<Uuid, DocumentEntry>): seq<DocumentEntry> {
    if order == [] then []
    else
      var id := order[|order| - 1];
      Collected(order[..|order| - 1], entries) + if id in entries then [entries[id]] else []
  }

  ghost predicate EntryBelow(docs: D.Registry, app: Uuid, id: Uuid, e: DocumentEntry) {
    && Listed(docs, app, id)
    && 1 < e.slotRow <= docs.slots[id].rowVersion
    && e.version in docs.versions && docs.versions[e.version].slot == id
    && (e.slotRow == docs.slots[id].rowVersion ==>
          docs.slots[id].active == Some(e.version) && e == EntryOf(docs.slots[id], docs.versions[e.version]))
  }

  ghost predicate EntriesBelow(docs: D.Registry, app: Uuid, documents: seq<DocumentEntry>, entries: map<Uuid, DocumentEntry>) {
    && Collected(docs.order, entries) == documents
    && forall id :: id in entries ==> EntryBelow(docs, app, id, entries[id])
  }

  ghost predicate DocumentsBelow(docs: D.Registry, app: Uuid, documents: seq<DocumentEntry>) {
    exists entries :: EntriesBelow(docs, app, documents, entries)
  }

  /** A manifest records a past state of its application: no row version is ahead of today's. */
  ghost predicate Below(c: Core, app: Uuid, m: Manifest) {
    SectionsBelow(c, app, m.sections) && DocumentsBelow(c.docs, app, m.documents)
  }

  ghost predicate SectionAhead(c: Core, app: Uuid, m: Manifest, k: nat) {
    k < 5 && k < |m.sections| && Row(c, app, k) > m.sections[k].rowVersion
  }

  /** The manifest has this slot, at the row version the slot still has. */
  ghost predicate Recorded(docs: D.Registry, id: Uuid, documents: seq<DocumentEntry>) {
    exists e :: e in documents && e.version in docs.versions && docs.versions[e.version].slot == id
                && id in docs.slots && e.slotRow == docs.slots[id].rowVersion
  }

  ghost predicate SlotAhead(docs: D.Registry, app: Uuid, m: Manifest, id: Uuid) {
    Listed(docs, app, id) && docs.slots[id].rowVersion > 1 && !Recorded(docs, id, m.documents)
  }

  /** A draft or a used slot has moved past the manifest. */
  ghost predicate Outdated(c: Core, app: Uuid, m: Manifest) {
    || (exists k :: SectionAhead(c, app, m, k))
    || (exists id :: SlotAhead(c.docs, app, m, id))
  }

  /** Reaching `t` from `s`, drafts and documents only move forward. */
  ghost predicate Onward(c: Core, c': Core) {
    && D.Forward(c.docs, c'.docs)
    && (forall app: Uuid, k :: 0 <= k < 5 ==>
          Row(c, app, k) < Row(c', app, k) || (Row(c, app, k) == Row(c', app, k) && HashOf(c, app, k) == HashOf(c', app, k)))
  }

  lemma {:induction false} CollectedLonger(order: seq<Uuid>, longer: seq<Uuid>, entries: map<Uuid, DocumentEntry>)
    requires order <= longer
    requires forall i :: |order| <= i < |longer| ==> longer[i] !in entries
    ensures Collected(longer, entries) == Collected(order, entries)
    decreases |longer|
  {
    if |order| == |longer| {
      assert order == longer;
    } else {
      CollectedLonger(order, longer[..|longer| - 1], entries);
    }
  }

  lemma EntryStaysBelow(docs: D.Registry, docs': D.Registry, app: Uuid, id: Uuid, e: DocumentEntry)
    requires D.Forward(docs, docs') && EntryBelow(docs, app, id, e)
    ensures EntryBelow(docs', app, id, e)
  {
  }

  lemma DocumentsStayBelow(docs: D.Registry, docs': D.Registry, app: Uuid, documents: seq<DocumentEntry>)
    requires D.Valid(docs) && D.Valid(docs') && D.Forward(docs, docs') && DocumentsBelow(docs, app, documents)
    ensures DocumentsBelow(docs', app, documents)
  {
    var entries :| EntriesBelow(docs, app, documents, entries);
    forall id | id in entries ensures id in docs.order && EntryBelow(docs', app, id, entries[id]) {
      EntryStaysBelow(docs, docs', app, id, entries[id]);
    }
    LaterSlotsAbsent(docs, docs', entries);
    CollectedLonger(docs.order, docs'.order, entries);
    assert EntriesBelow(docs', app, documents, entries);
  }

  lemma LaterSlotsAbsent(docs: D.Registry, docs': D.Registry, entries: map<Uuid, DocumentEntry>)
    requires D.Valid(docs') && docs.order <= docs'.order
    requires forall id :: id in entries ==> id in docs.order
    ensures forall i :: |docs.order| <= i < |docs'.order| ==> docs'.order[i] !in entries
  {
  }

  lemma BelowStaysBelow(c: Core, c': Core, app: Uuid, m: Manifest)
    requires D.Valid(c.docs) && D.Valid(c'.docs) && Onward(c, c') && Below(c, app, m)
    ensures Below(c', app, m)
  {
    DocumentsStayBelow(c.docs, c'.docs, app, m.documents);
  }

  lemma {:induction false} CollectedHas(order: seq<Uuid>, entries: map<Uuid, DocumentEntry>, e: DocumentEntry) returns (id: Uuid)
    requires e in Collected(order, entries)
    ensures id in entries && entries[id] == e && id in order
  {
    var last := order[|order| - 1];
    if last in entries && entries[last] == e {
      id := last;
    } else {
      id := CollectedHas(order[..|order| - 1], entries, e);
    }
  }

  lemma EntryOwner(docs: D.Registry, app: Uuid, m: Manifest, e: DocumentEntry, id: Uuid, entries: map<Uuid, DocumentEntry>)
    requires EntriesBelow(docs, app, m.documents, entries) && e in m.documents
    requires e.version in docs.versions && docs.versions[e.version].slot == id
    ensures id in entries && entries[id] == e
  {
    var owner := CollectedHas(docs.order, entries, e);
    assert EntryBelow(docs, app, owner, entries[owner]);
  }

  lemma OutdatedStaysOutdated(c: Core, c': Core, app: Uuid, m: Manifest)
    requires Onward(c, c') && Below(c, app, m) && Outdated(c, app, m)
    ensures Outdated(c', app, m)
  {
    if exists k :: SectionAhead(c, app, m, k) {
      var k :| SectionAhead(c, app, m, k);
      assert SectionAhead(c', app, m, k);
    } else {
      var id :| SlotAhead(c.docs, app, m, id);
      SlotStaysAhead(c, c', app, m, id);
    }
  }

  lemma SlotStaysAhead(c: Core, c': Core, app: Uuid, m: Manifest, id: Uuid)
    requires D.Forward(c.docs, c'.docs) && Below(c, app, m) && SlotAhead(c.docs, app, m, id)
    ensures SlotAhead(c'.docs, app, m, id)
  {
    var entries :| EntriesBelow(c.docs, app, m.documents, entries);
    if Recorded(c'.docs, id, m.documents) {
      var e :| e in m.documents && e.version in c'.docs.versions && c'.docs.versions[e.version].slot == id
               && e.slotRow == c'.docs.slots[id].rowVersion;
      var owner := CollectedHas(c.docs.order, entries, e);
      assert false;
    }
  }

  /** A used slot whose row version has grown since it was recorded is ahead. */
  lemma GrownSlotIsAhead(c: Core, c': Core, app: Uuid, m: Manifest, id: Uuid)
    requires D.Forward(c.docs, c'.docs) && Below(c, app, m)
    requires Listed(c'.docs, app, id) && id in c.docs.slots
    requires c.docs.slots[id].rowVersion < c'.docs.slots[id].rowVersion
    ensures c'.docs.slots[id].rowVersion > 1 ==> SlotAhead(c'.docs, app, m, id)
  {
    var entries :| EntriesBelow(c.docs, app, m.documents, entries);
    if Recorded(c'.docs, id, m.documents) {
      var e :| e in m.documents && e.version in c'.docs.versions && c'.docs.versions[e.version].slot == id
               && e.slotRow == c'.docs.slots[id].rowVersion;
      var owner := CollectedHas(c.docs.order, entries, e);
    }
  }

  // ------------------------------------------------------------------
  // The manifest of a state that is ready
  // ------------------------------------------------------------------

  ghost predicate Ready(c: Core, app: Uuid) {
    UnresolvedOf(c, app) == []
  }

  lemma {:induction false} ReadySections(c: Core, app: Uuid, n: nat)
    requires n <= 5
    ensures UnresolvedSections(c, app, REQUIRED_SECTIONS[..n]) == [] <==>
            forall k :: 0 <= k < n ==> SectionReady(c, app, REQUIRED_SECTIONS[k])
    ensures UnresolvedSections(c, app, REQUIRED_SECTIONS[..n]) == [] ==>
            var entries := SectionEntries(c, app, REQUIRED_SECTIONS[..n]);
            && |entries| == n
            && forall k :: 0 <= k < n ==>
                 entries[k] == SectionEntry(REQUIRED_SECTIONS[k], Row(c, app, k), HashOf(c, app, k))
  {
    if n > 0 {
      assert REQUIRED_SECTIONS[..n][..n - 1] == REQUIRED_SECTIONS[..n - 1];
      ReadySections(c, app, n - 1);
    }
  }

  lemma {:induction false} ReadyDocuments(docs: D.Registry, app: Uuid, ids: seq<Uuid>)
    ensures UnresolvedDocuments(docs, app, ids) == [] <==>
            forall id :: id in ids && Listed(docs, app, id) ==> !SlotUnresolved(docs, docs.slots[id])
  {
    if ids != [] {
      ReadyDocuments(docs, app, ids[..|ids| - 1]);
      assert forall id :: id in ids <==> id in ids[..|ids| - 1] || id == ids[|ids| - 1];
    }
  }

  /** In a ready application a listed slot is used exactly if it is active, and then its entry is in the manifest. */
  lemma ReadySlot(docs: D.Registry, app: Uuid, id: Uuid)
    requires D.Valid(docs) && Listed(docs, app, id) && !SlotUnresolved(docs, docs.slots[id])
    ensures docs.slots[id].rowVersion > 1 <==> docs.slots[id].active.Some?
    ensures docs.slots[id].active.Some? ==>
            && docs.slots[id].active.value in docs.versions
            && docs.versions[docs.slots[id].active.value].id == docs.slots[id].active.value
            && docs.versions[docs.slots[id].active.value].slot == id
            && SlotEntry(docs, app, id) == [EntryOf(docs.slots[id], docs.versions[docs.slots[id].active.value])]
    ensures docs.slots[id].active.None? ==> SlotEntry(docs, app, id) == []
  {
    assert D.SlotOk(docs, id);
    if docs.slots[id].active.Some? {
      assert D.VersionOk(docs, docs.slots[id].active.value);
    }
  }

  /** If nothing has moved past a past manifest, a ready application has that very manifest again. */
  lemma ManifestUnlessOutdated(c: Core, app: Uuid, m: Manifest)
    requires D.Valid(c.docs) && Below(c, app, m) && Ready(c, app)
    ensures ManifestOf(c, app) == m <==> !Outdated(c, app, m)
  {
    assert REQUIRED_SECTIONS[..5] == REQUIRED_SECTIONS;
    ReadySections(c, app, 5);
    ReadyDocuments(c.docs, app, c.docs.order);
    var entries :| EntriesBelow(c.docs, app, m.documents, entries);
    if !Outdated(c, app, m) {
      forall k | 0 <= k < 5 ensures SectionEntries(c, app, REQUIRED_SECTIONS)[k] == m.sections[k] {
        assert !SectionAhead(c, app, m, k);
      }
      assert SectionEntries(c, app, REQUIRED_SECTIONS) == m.sections;
      SameDocuments(c.docs, app, m, entries, |c.docs.order|);
      assert c.docs.order[..|c.docs.order|] == c.docs.order;
    }
    if ManifestOf(c, app) == m && exists id :: SlotAhead(c.docs, app, m, id) {
      var id :| SlotAhead(c.docs, app, m, id);
      ReadySlot(c.docs, app, id);
      EntryListed(c.docs, app, c.docs.order, id);
      assert false;
    }
  }

  lemma {:induction false} EntryListed(docs: D.Registry, app: Uuid, ids: seq<Uuid>, id: Uuid)
    requires id in ids
    ensures forall e :: e in SlotEntry(docs, app, id) ==> e in DocumentEntries(docs, app, ids)
  {
    if ids[|ids| - 1] != id {
      EntryListed(docs, app, ids[..|ids| - 1], id);
    }
  }

  lemma {:induction false} SameDocuments(docs: D.Registry, app: Uuid, m: Manifest, entries: map<Uuid, DocumentEntry>, n: nat)
    requires D.Valid(docs) && n <= |docs.order|
    requires EntriesBelow(docs, app, m.documents, entries)
    requires forall id :: id in docs.order && Listed(docs, app, id) ==> !SlotUnresolved(docs, docs.slots[id])
    requires forall id :: !SlotAhead(docs, app, m, id)
    ensures DocumentEntries(docs, app, docs.order[..n]) == Collected(docs.order[..n], entries)
  {
    if n > 0 {
      SameDocuments(docs, app, m, entries, n - 1);
      assert docs.order[..n][..n - 1] == docs.order[..n - 1];
      SameEntry(docs, app, m, entries, docs.order[n - 1]);
    }
  }

  lemma SameEntry(docs: D.Registry, app: Uuid, m: Manifest, entries: map<Uuid, DocumentEntry>, id: Uuid)
    requires D.Valid(docs) && id in docs.order
    requires EntriesBelow(docs, app, m.documents, entries)
    requires Listed(docs, app, id) ==> !SlotUnresolved(docs, docs.slots[id])
    requires !SlotAhead(docs, app, m, id)
    ensures SlotEntry(docs, app, id) == if id in entries then [entries[id]] else []
  {
    if Listed(docs, app, id) {
      ReadySlot(docs, app, id);
      if docs.slots[id].rowVersion > 1 {
        var e :| e in m.documents && e.version in docs.versions && docs.versions[e.version].slot == id
                 && e.slotRow == docs.slots[id].rowVersion;
        EntryOwner(docs, app, m, e, id, entries);
        assert EntryBelow(docs, app, id, entries[id]);
      }
    }
  }

  /** A manifest taken now is level with the present. */
  lemma FreshManifest(c: Core, app: Uuid)
    requires D.Valid(c.docs) && Ready(c, app)
    requires forall k :: 0 <= k < 5 && (app, REQUIRED_SECTIONS[k]) in c.drafts.drafts ==> Row(c, app, k) >= 1
    ensures Below(c, app, ManifestOf(c, app)) && !Outdated(c, app, ManifestOf(c, app))
  {
    assert REQUIRED_SECTIONS[..5] == REQUIRED_SECTIONS;
    ReadySections(c, app, 5);
    ReadyDocuments(c.docs, app, c.docs.order);
    var docs := c.docs;
    var entries := map id | id in docs.slots && Listed(docs, app, id) && docs.slots[id].active.Some?
                            && docs.slots[id].active.value in docs.versions
      :: EntryOf(docs.slots[id], docs.versions[docs.slots[id].active.value]);
    forall id | id in entries ensures EntryBelow(docs, app, id, entries[id]) { ReadySlot(docs, app, id); }
    FreshDocuments(docs, app, entries, |docs.order|);
    assert docs.order[..|docs.order|] == docs.order;
    assert EntriesBelow(docs, app, ManifestOf(c, app).documents, entries);
    ManifestUnlessOutdated(c, app, ManifestOf(c, app));
  }

  lemma {:induction false} FreshDocuments(docs: D.Registry, app: Uuid, entries: map<Uuid, DocumentEntry>, n: nat)
    requires D.Valid(docs) && n <= |docs.order|
    requires forall id :: id in docs.order && Listed(docs, app, id) ==> !SlotUnresolved(docs, docs.slots[id])
    requires forall id :: id in entries <==> Listed(docs, app, id) && docs.slots[id].active.Some?
                                             && docs.slots[id].active.value in docs.versions
    requires forall id :: id in entries ==>
      && id in docs.slots && docs.slots[id].active.Some? && docs.slots[id].active.value in docs.versions
      && entries[id] == EntryOf(docs.slots[id], docs.versions[docs.slots[id].active.value])
    ensures DocumentEntries(docs, app, docs.order[..n]) == Collected(docs.order[..n], entries)
  {
    if n > 0 {
      FreshDocuments(docs, app, entries, n - 1);
      assert docs.order[..n][..n - 1] == docs.order[..n - 1];
      var id := docs.order[n - 1];
      if Listed(docs, app, id) { ReadySlot(docs, app, id); }
    }
  }
}
