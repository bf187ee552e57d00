/** When an operation on a document slot succeeds and what it then changes, in terms of the registry itself. */
module SlotRules {
  import opened Base
  import opened ObjectTypes
  import opened Documents

  // ------------------------------------------------------------------
  // What an applicant may see
  // ------------------------------------------------------------------

  /** Marked visible, reviewed as such, and neither by type nor by link nor by name a recommendation. */
  ghost predicate ForApplicants(visible: bool, classification: Classification, documentType: DocumentType, linked: bool, code: string) {
    visible && classification == ApplicantVisible && documentType != RecommendationLetter && !linked && !Within("RECOMMEND", code)
  }

  ghost predicate SlotForApplicants(slot: Slot) {
    ForApplicants(slot.visible, slot.classification, slot.documentType, slot.recommendationLinked, slot.code)
  }

  lemma SafeIff(slot: Slot)
    ensures SafeApplicantSlot(slot) <==> SlotForApplicants(slot)
  {
    ContainsIff("RECOMMEND", slot.code);
  }

  // ------------------------------------------------------------------
  // Decisions
  // ------------------------------------------------------------------

  /** Something that has to be said is missing, or the mode is not one to open a slot in. */
  predicate Unsaid(d: Decision) {
    match d
    case OpenSlot(_, _, mode, actor, reason) => !(mode.Missing? || mode.Replacement?) || actor == "" || reason == ""
    case Accept(_, actor) => actor == ""
    case Reject(_, actor, reason) => actor == "" || reason == ""
    case Restore(_, _, actor) => actor == ""
  }

  /** What the decision is about is there and in the state for it. */
  ghost predicate Possible(r: Registry, d: Decision) {
    match d
    case OpenSlot(app, slot, _, _, _) => slot in r.slots && r.slots[slot].app == app && SlotForApplicants(r.slots[slot])
    case Accept(version, _) => version in r.versions && r.versions[version].status == Pending
    case Reject(version, _, _) => version in r.versions && r.versions[version].status == Pending
    case Restore(slot, version, _) =>
      slot in r.slots && version in r.versions && r.versions[version].slot == slot && r.versions[version].status == Accepted
  }

  /** A decision is refused for what was left unsaid, else for what is not possible, else it succeeds. */
  lemma DecisionSucceedsIff(r: Registry, d: Decision)
    requires Valid(r)
    ensures DecisionError(r, d) ==
            if Unsaid(d) then Some(InvalidArguments) else if !Possible(r, d) then Some(Unavailable) else None
  {
    match d
    case OpenSlot(_, slot, _, _, _) => if slot in r.slots { SafeIff(r.slots[slot]); }
    case Accept(version, _) => if version in r.versions { assert VersionOk(r, version); }
    case Reject(_, _, _) =>
    case Restore(_, _, _) =>
  }

  /**
   * A successful decision opens the slot in the mode given; makes the version accepted, visible and the active one of its
   * slot; rejects the version with its reason; or makes the version the active one of the slot. The slot it changes is one
   * row version on, and all else stays.
   */
  lemma DecisionEffect(r: Registry, d: Decision)
    requires Valid(r) && DecisionError(r, d).None?
    ensures match d
      case OpenSlot(_, id, mode, _, _) =>
        && id in r.slots
        && AfterDecision(r, d) == r.(slots := r.slots[id := r.slots[id].(mode := mode, rowVersion := r.slots[id].rowVersion + 1)])
      case Accept(vid, _) =>
        && vid in r.versions && r.versions[vid].slot in r.slots
        && var id := r.versions[vid].slot;
           AfterDecision(r, d) == r.(
             versions := r.versions[vid := r.versions[vid].(status := Accepted, classification := ApplicantVisible)],
             slots := r.slots[id := r.slots[id].(active := Some(vid), rowVersion := r.slots[id].rowVersion + 1)])
      case Reject(vid, _, reason) =>
        && vid in r.versions
        && AfterDecision(r, d) == r.(
             versions := r.versions[vid := r.versions[vid].(status := Rejected, rejectionReason := Some(reason))])
      case Restore(id, vid, _) =>
        && id in r.slots
        && AfterDecision(r, d) == r.(
             slots := r.slots[id := r.slots[id].(active := Some(vid), rowVersion := r.slots[id].rowVersion + 1)])
  {
    if d.Accept? { assert VersionOk(r, d.version); }
  }

  // ------------------------------------------------------------------
  // New slots and new versions
  // ------------------------------------------------------------------

  /** A slot is added, closed and empty, unless it is nameless or would show applicants what is not for them. */
  lemma AddEffect(r: Registry, id: Uuid, app: Uuid, spec: SlotSpec)
    ensures AddRefused(spec) <==>
      || spec.code == "" || spec.slotLabel == ""
      || (spec.visible
          && !ForApplicants(spec.visible, spec.classification, spec.documentType, spec.recommendationLinked, spec.code))
    ensures AddRefused(spec) ==> AfterAdd(r, id, app, spec) == r
    ensures !AddRefused(spec) ==>
      AfterAdd(r, id, app, spec) == r.(
        order := r.order + [id], slotVersions := r.slotVersions[id := []],
        slots := r.slots[id := Slot(
          id, app, spec.code, spec.slotLabel, spec.required, spec.visible, spec.classification, spec.documentType,
          spec.recommendationLinked, Closed, 1, None, None)])
  {
    ContainsIff("RECOMMEND", spec.code);
  }

  /** The slot is the application's, for applicants, open, and at the row version the upload began with. */
  ghost predicate OpenForUpload(r: Registry, app: Uuid, id: Uuid, expected: nat) {
    && id in r.slots && r.slots[id].app == app && SlotForApplicants(r.slots[id])
    && (r.slots[id].mode.Missing? || r.slots[id].mode.Replacement?) && r.slots[id].rowVersion == expected
  }

  lemma UploadAllowedIff(r: Registry, app: Uuid, id: Uuid, expected: nat)
    ensures UploadAllowed(r, app, id, expected) <==> OpenForUpload(r, app, id, expected)
  {
    if id in r.slots { SafeIff(r.slots[id]); }
  }

  /**
   * An upload registers exactly into such a slot, as its last version with the next number, pending and unreviewed, with
   * the file and identifiers it began with; the slot is then closed, one row version on, and all else stays.
   */
  lemma RegistrationEffect(r: Registry, t: Ticket, record: StoredObjectRecord, name: string)
    requires Valid(r)
    ensures var id, r' := t.slot.id, AfterRegister(r, t, record, name);
      if !OpenForUpload(r, t.slot.app, id, t.expected) then r' == r
      else
        && r'.order == r.order
        && r'.slotVersions == r.slotVersions[id := r.slotVersions[id] + [t.version]]
        && r'.slots == r.slots[id := r.slots[id].(mode := Closed, rowVersion := r.slots[id].rowVersion + 1, document := Some(t.document))]
        && t.version in r'.versions && (forall v :: v in r.versions && v != t.version ==> v in r'.versions && r'.versions[v] == r.versions[v])
        && (forall v :: v in r'.versions ==> v == t.version || v in r.versions)
        && var v := r'.versions[t.version];
           && v.id == t.version && v.slot == id && v.document == t.document && v.number == |r.slotVersions[id]| + 1
           && v.status == Pending && v.record == record && v.displayName == name && v.classification == Unreviewed
           && v.binding == ObjectBinding(t.slot.app, t.document, t.version, t.objectId) && v.rejectionReason.None?
           && v.documentType == r.slots[id].documentType && v.recommendationLinked == r.slots[id].recommendationLinked
  {
    UploadAllowedIff(r, t.slot.app, t.slot.id, t.expected);
    if t.slot.id in r.slots { assert SlotOk(r, t.slot.id); }
  }

  /** A replacement keeps the document of its slot, and the first upload draws a new one; each version has its own identifiers. */
  lemma TicketIs(r: Registry, id: Uuid, row: nat, uuid: Uuid)
    requires id in r.slots
    ensures var t := TicketFor(r, id, row, uuid);
      && t.slot == r.slots[id] && t.expected == row && t.version != t.objectId
      && (r.slots[id].document.Some? ==> Some(t.document) == r.slots[id].document)
      && (r.slots[id].document.None? ==> t.document != t.version && t.document != t.objectId)
  {
  }
}
