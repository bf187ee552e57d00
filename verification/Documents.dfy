/** Document slots and their append-only versions (app/applicant/documents.py, DocumentSlotRepository). */
module Documents {
  import opened Base
  import opened ObjectTypes

  datatype Classification = ApplicantVisible | Unreviewed | OtherClassification(name: string)

  datatype DocumentType = RecommendationLetter | OtherType(name: string)

  datatype UploadMode = Closed | Missing | Replacement | InvalidMode(name: string)

  datatype Status = Pending | Accepted | Rejected

  datatype Slot = Slot(
    id: Uuid,
    app: Uuid,
    code: string,
    slotLabel: string,
    required: bool,
    visible: bool,
    classification: Classification,
    documentType: DocumentType,
    recommendationLinked: bool,
    mode: UploadMode,
    rowVersion: nat,
    active: Option<Uuid>,
    document: Option<Uuid>)

  datatype Version = Version(
    id: Uuid,
    slot: Uuid,
    document: Uuid,
    number: nat,
    status: Status,
    record: StoredObjectRecord,
    binding: ObjectBinding,
    displayName: string,
    classification: Classification,
    documentType: DocumentType,
    recommendationLinked: bool,
    rejectionReason: Option<string>)

  datatype DocumentError = InvalidArguments | Unavailable

  /** What `add_slot` is told, with its text already stripped and its code in upper case. */
  datatype SlotSpec = SlotSpec(
    code: string, slotLabel: string, required: bool, visible: bool,
    classification: Classification, documentType: DocumentType, recommendationLinked: bool)

  /** `order` is the insertion order that Python's dictionary of slots keeps. */
  datatype Registry = Registry(
    order: seq<Uuid>,
    slots: map<Uuid, Slot>,
    versions: map<Uuid, Version>,
    slotVersions: map<Uuid, seq<Uuid>>)

  const EMPTY := Registry([], map[], map[], map[])

  // ------------------------------------------------------------------
  // What one operation does, as functions of the registry
  // ------------------------------------------------------------------

  predicate Confidential(spec: SlotSpec) {
    !spec.classification.ApplicantVisible? || spec.documentType.RecommendationLetter? ||
    spec.recommendationLinked || Contains("RECOMMEND", spec.code)
  }

  predicate SafeApplicantSlot(slot: Slot) {
    && slot.visible
    && slot.classification.ApplicantVisible?
    && !slot.documentType.RecommendationLetter?
    && !slot.recommendationLinked
    && !Contains("RECOMMEND", slot.code)
  }

  predicate AddRefused(spec: SlotSpec) {
    (Confidential(spec) && spec.visible) || spec.code == "" || spec.slotLabel == ""
  }

  function NewSlot(id: Uuid, app: Uuid, spec: SlotSpec): Slot {
    Slot(id, app, spec.code, spec.slotLabel, spec.required, spec.visible, spec.classification, spec.documentType,
         spec.recommendationLinked, Closed, 1, None, None)
  }

  function AfterAdd(r: Registry, id: Uuid, app: Uuid, spec: SlotSpec): Registry {
    if AddRefused(spec) then r
    else r.(order := r.order + [id],
            slots := r.slots[id := NewSlot(id, app, spec)],
            slotVersions := r.slotVersions[id := []])
  }

  function OpenError(r: Registry, app: Uuid, id: Uuid, mode: UploadMode, actor: string, reason: string): Option<DocumentError> {
    if (mode != Missing && mode != Replacement) || actor == "" || reason == "" then Some(InvalidArguments)
    else if id !in r.slots || r.slots[id].app != app || !SafeApplicantSlot(r.slots[id]) then Some(Unavailable)
    else None
  }

  function AfterOpen(r: Registry, app: Uuid, id: Uuid, mode: UploadMode, actor: string, reason: string): Registry {
    if OpenError(r, app, id, mode, actor, reason).Some? then r
    else r.(slots := r.slots[id := r.slots[id].(mode := mode, rowVersion := r.slots[id].rowVersion + 1)])
  }

  predicate UploadAllowed(r: Registry, app: Uuid, id: Uuid, expected: nat) {
    && id in r.slots
    && r.slots[id].app == app
    && SafeApplicantSlot(r.slots[id])
    && (r.slots[id].mode == Missing || r.slots[id].mode == Replacement)
    && r.slots[id].rowVersion == expected
  }

  /** An upload that has passed `require_upload` and has not reached `register_pending` yet. */
  datatype Ticket = Ticket(slot: Slot, expected: nat, version: Uuid, document: Uuid, objectId: Uuid)

  /** The ticket of an upload that begins now; an upload draws three fresh identifiers and a replacement keeps its document. */
  function TicketFor(r: Registry, id: Uuid, row: nat, uuid: Uuid): Ticket
    requires id in r.slots
  {
    var document := if r.slots[id].document.Some? then r.slots[id].document.value else uuid + 2;
    Ticket(r.slots[id], row, uuid, document, uuid + 1)
  }

  function BindingOf(t: Ticket): ObjectBinding {
    ObjectBinding(t.slot.app, t.document, t.version, t.objectId)
  }

  predicate Registrable(r: Registry, t: Ticket) {
    UploadAllowed(r, t.slot.app, t.slot.id, t.expected)
  }

  function NewVersion(r: Registry, t: Ticket, record: StoredObjectRecord, name: string): Version
    requires t.slot.id in r.slots && t.slot.id in r.slotVersions
  {
    var current := r.slots[t.slot.id];
    Version(t.version, current.id, t.document, |r.slotVersions[t.slot.id]| + 1, Pending, record, BindingOf(t), name,
            Unreviewed, current.documentType, current.recommendationLinked, None)
  }

  function AfterRegister(r: Registry, t: Ticket, record: StoredObjectRecord, name: string): Registry
    requires t.slot.id in r.slots ==> t.slot.id in r.slotVersions
  {
    if !Registrable(r, t) then r
    else
      var id := t.slot.id;
      var current := r.slots[id];
      r.(versions := r.versions[t.version := NewVersion(r, t, record, name)],
         slotVersions := r.slotVersions[id := r.slotVersions[id] + [t.version]],
         slots := r.slots[id := current.(mode := Closed, rowVersion := current.rowVersion + 1,
                                         document := Some(t.document))])
  }

  predicate IsRecommendation(v: Version) {
    v.documentType.RecommendationLetter? || v.recommendationLinked
  }

  function AcceptError(r: Registry, vid: Uuid, actor: string): Option<DocumentError> {
    if actor == "" then Some(InvalidArguments)
    else if vid !in r.versions || r.versions[vid].status != Pending || IsRecommendation(r.versions[vid]) then Some(Unavailable)
    else None
  }

  function Activated(slot: Slot, vid: Uuid): Slot {
    slot.(active := Some(vid), rowVersion := slot.rowVersion + 1)
  }

  function AfterAccept(r: Registry, vid: Uuid, actor: string): Registry
  {
    if AcceptError(r, vid, actor).Some? || r.versions[vid].slot !in r.slots then r
    else
      var v := r.versions[vid];
      r.(versions := r.versions[vid := v.(status := Accepted, classification := ApplicantVisible)],
         slots := r.slots[v.slot := Activated(r.slots[v.slot], vid)])
  }

  function RejectError(r: Registry, vid: Uuid, actor: string, reason: string): Option<DocumentError> {
    if actor == "" || reason == "" then Some(InvalidArguments)
    else if vid !in r.versions || r.versions[vid].status != Pending then Some(Unavailable)
    else None
  }

  function AfterReject(r: Registry, vid: Uuid, actor: string, reason: string): Registry {
    if RejectError(r, vid, actor, reason).Some? then r
    else r.(versions := r.versions[vid := r.versions[vid].(status := Rejected, rejectionReason := Some(reason))])
  }

  function RestoreError(r: Registry, id: Uuid, vid: Uuid, actor: string): Option<DocumentError> {
    if actor == "" then Some(InvalidArguments)
    else if vid !in r.versions || id !in r.slots || r.versions[vid].slot != id || r.versions[vid].status != Accepted then
      Some(Unavailable)
    else None
  }

  function AfterRestore(r: Registry, id: Uuid, vid: Uuid, actor: string): Registry {
    if RestoreError(r, id, vid, actor).Some? then r
    else r.(slots := r.slots[id := Activated(r.slots[id], vid)])
  }

  /** An administrator's operations on existing slots and versions. */
  datatype Decision =
    | OpenSlot(app: Uuid, slot: Uuid, mode: UploadMode, actor: string, reason: string)
    | Accept(version: Uuid, actor: string)
    | Reject(version: Uuid, actor: string, reason: string)
    | Restore(slot: Uuid, version: Uuid, actor: string)

  function AfterDecision(r: Registry, d: Decision): Registry {
    match d
    case OpenSlot(app, slot, mode, actor, reason) => AfterOpen(r, app, slot, mode, actor, reason)
    case Accept(version, actor) => AfterAccept(r, version, actor)
    case Reject(version, actor, reason) => AfterReject(r, version, actor, reason)
    case Restore(slot, version, actor) => AfterRestore(r, slot, version, actor)
  }

  function DecisionError(r: Registry, d: Decision): Option<DocumentError> {
    match d
    case OpenSlot(app, slot, mode, actor, reason) => OpenError(r, app, slot, mode, actor, reason)
    case Accept(version, actor) => AcceptError(r, version, actor)
    case Reject(version, actor, reason) => RejectError(r, version, actor, reason)
    case Restore(slot, version, actor) => RestoreError(r, slot, version, actor)
  }

  /** The slot an accepted decision changes; a rejection changes a version only. */
  function DecidedSlot(r: Registry, d: Decision): Option<Uuid> {
    if DecisionError(r, d).Some? then None
    else match d
      case OpenSlot(_, slot, _, _, _) => Some(slot)
      case Accept(version, _) => if version in r.versions then Some(r.versions[version].slot) else None
      case Reject(_, _, _) => None
      case Restore(slot, _, _) => Some(slot)
  }

  function ActiveVersion(r: Registry, slot: Slot): Option<Version> {
    if slot.active.None? || slot.active.value !in r.versions || r.versions[slot.active.value].slot != slot.id then None
    else Some(r.versions[slot.active.value])
  }

  /** The last registered version of a slot, whatever its status. */
  function LatestVersion(r: Registry, id: Uuid): Option<Version> {
    if id !in r.slotVersions || r.slotVersions[id] == [] then None
    else
      var last := r.slotVersions[id][|r.slotVersions[id]| - 1];
      if last in r.versions then Some(r.versions[last]) else None
  }

  // ------------------------------------------------------------------
  // Consistency of the registry
  // ------------------------------------------------------------------

  ghost predicate SlotOk(r: Registry, id: Uuid)
    requires id in r.slots && id in r.slotVersions
  {
    var slot := r.slots[id];
    var list := r.slotVersions[id];
    && slot.id == id
    && slot.rowVersion >= 1
    // Only slots an applicant may see are ever opened, filled or activated.
    && (!SafeApplicantSlot(slot) ==> slot.rowVersion == 1)
    && (slot.rowVersion == 1 ==> slot.mode == Closed && slot.active.None? && list == [])
    && (slot.rowVersion > 1 && slot.mode == Closed ==> list != [])
    // Versions are numbered 1, 2, 3, ... in order of registration.
    && (forall i :: 0 <= i < |list| ==>
          list[i] in r.versions && r.versions[list[i]].slot == id && r.versions[list[i]].number == i + 1)
    // The active pointer names an accepted version of this very slot, and appears with the first acceptance.
    && (slot.active.Some? ==>
          && slot.active.value in r.versions
          && var v := r.versions[slot.active.value];
             v.slot == id && v.status == Accepted && v.classification == ApplicantVisible && !IsRecommendation(v))
    && (forall i :: 0 <= i < |list| && r.versions[list[i]].status == Accepted ==> slot.active.Some?)
  }

  ghost predicate VersionOk(r: Registry, vid: Uuid)
    requires vid in r.versions
  {
    var v := r.versions[vid];
    && v.id == vid == v.binding.version
    && v.slot in r.slots
    && v.slot in r.slotVersions
    && v.binding.app == r.slots[v.slot].app
    && 1 <= v.number <= |r.slotVersions[v.slot]|
    && r.slotVersions[v.slot][v.number - 1] == vid
    && (v.status == Accepted <==> v.classification == ApplicantVisible)
    && !IsRecommendation(v)
  }

  ghost predicate Valid(r: Registry) {
    && (forall i, j :: 0 <= i < j < |r.order| ==> r.order[i] != r.order[j])
    && (forall id :: id in r.slots <==> id in r.order)
    && (forall id :: id in r.slots <==> id in r.slotVersions)
    && (forall id {:trigger SlotOk(r, id)} :: id in r.slots ==> SlotOk(r, id))
    && (forall vid {:trigger VersionOk(r, vid)} :: vid in r.versions ==> VersionOk(r, vid))
  }

  lemma EmptyIsValid()
    ensures Valid(EMPTY)
  {
  }

  // ------------------------------------------------------------------
  // The repository
  // ------------------------------------------------------------------

  class DocumentSlotRepository {
    var order: seq<Uuid>
    var slots: map<Uuid, Slot>
    var versions: map<Uuid, Version>
    var slotVersions: map<Uuid, seq<Uuid>>

    ghost function View(): Registry
      reads this
    {
      Registry(order, slots, versions, slotVersions)
    }

    constructor ()
      ensures View() == EMPTY && Valid(View())
    {
      order, slots, versions, slotVersions := [], map[], map[], map[];
    }

    method AddSlot(id: Uuid, app: Uuid, spec: SlotSpec) returns (r: Result<Slot, DocumentError>)
      requires Valid(View()) && id !in slots
      modifies this
      ensures View() == AfterAdd(old(View()), id, app, spec) && Valid(View())
      ensures r == if AddRefused(spec) then Err(InvalidArguments) else Ok(NewSlot(id, app, spec))
    {
      AddKeepsValid(View(), id, app, spec);
      var confidential := Confidential(spec);
      if confidential && spec.visible {
        return Err(InvalidArguments);
      }
      if spec.code == "" || spec.slotLabel == "" {
        return Err(InvalidArguments);
      }
      var slot := NewSlot(id, app, spec);
      order := order + [id];
      slots := slots[id := slot];
      slotVersions := slotVersions[id := []];
      return Ok(slot);
    }

    method OpenSlot(app: Uuid, id: Uuid, mode: UploadMode, actor: string, reason: string)
      returns (r: Result<Slot, DocumentError>)
      requires Valid(View())
      modifies this
      ensures View() == AfterOpen(old(View()), app, id, mode, actor, reason) && Valid(View())
      ensures r == match OpenError(old(View()), app, id, mode, actor, reason)
                   case Some(e) => Err(e)
                   case None => Ok(View().slots[id])
    {
      OpenKeepsValid(View(), app, id, mode, actor, reason);
      if (mode != Missing && mode != Replacement) || actor == "" || reason == "" {
        return Err(InvalidArguments);
      }
      if id !in slots || slots[id].app != app || !SafeApplicantSlot(slots[id]) {
        return Err(Unavailable);
      }
      var updated := slots[id].(mode := mode, rowVersion := slots[id].rowVersion + 1);
      slots := slots[id := updated];
      return Ok(updated);
    }

    method RequireUpload(app: Uuid, id: Uuid, expected: nat) returns (r: Result<Slot, DocumentError>)
      ensures r == if UploadAllowed(View(), app, id, expected) then Ok(slots[id]) else Err(Unavailable)
    {
      if id !in slots || slots[id].app != app || !SafeApplicantSlot(slots[id])
         || (slots[id].mode != Missing && slots[id].mode != Replacement) || slots[id].rowVersion != expected {
        return Err(Unavailable);
      }
      return Ok(slots[id]);
    }

    method RegisterPending(t: Ticket, record: StoredObjectRecord, name: string)
      returns (r: Result<Version, DocumentError>)
      requires Valid(View()) && t.version !in versions
      modifies this
      ensures View() == AfterRegister(old(View()), t, record, name) && Valid(View())
      ensures r == if Registrable(old(View()), t) then Ok(NewVersion(old(View()), t, record, name)) else Err(Unavailable)
    {
      RegisterKeepsValid(View(), t, record, name);
      if t.slot.id in slots { assert SlotOk(View(), t.slot.id); }
      var allowed := RequireUpload(t.slot.app, t.slot.id, t.expected);
      if allowed.Err? {
        return Err(allowed.error);
      }
      var version := AppendPending(t, allowed.value, record, name);
      return Ok(version);
    }

    /** The new version, the slot's list of versions and the slot itself. */
    method AppendPending(t: Ticket, current: Slot, record: StoredObjectRecord, name: string) returns (version: Version)
      requires t.slot.id in slots && t.slot.id in slotVersions && current == slots[t.slot.id] && current.id == t.slot.id
      requires Registrable(View(), t)
      modifies this
      ensures View() == AfterRegister(old(View()), t, record, name) && version == NewVersion(old(View()), t, record, name)
    {
      var existing := slotVersions[current.id];
      version := Version(t.version, current.id, t.document, |existing| + 1, Pending, record, BindingOf(t), name,
                             Unreviewed, current.documentType, current.recommendationLinked, None);
      versions := versions[t.version := version];
      slotVersions := slotVersions[current.id := existing + [t.version]];
      slots := slots[current.id := current.(mode := Closed, rowVersion := current.rowVersion + 1,
                                            document := Some(t.document))];
    }

    method Accept(vid: Uuid, actor: string) returns (r: Result<Version, DocumentError>)
      requires Valid(View())
      modifies this
      ensures View() == AfterAccept(old(View()), vid, actor) && Valid(View())
      ensures r == match AcceptError(old(View()), vid, actor)
                   case Some(e) => Err(e)
                   case None => Ok(View().versions[vid])
    {
      AcceptKeepsValid(View(), vid, actor);
      if actor == "" {
        return Err(InvalidArguments);
      }
      if vid !in versions || versions[vid].status != Pending {
        return Err(Unavailable);
      }
      var version := versions[vid];
      assert VersionOk(View(), vid);
      if version.documentType.RecommendationLetter? || version.recommendationLinked {
        return Err(Unavailable);
      }
      var accepted := version.(status := Accepted, classification := ApplicantVisible);
      versions := versions[vid := accepted];
      slots := slots[version.slot := Activated(slots[version.slot], vid)];
      return Ok(accepted);
    }

    method Reject(vid: Uuid, actor: string, reason: string) returns (r: Result<Version, DocumentError>)
      requires Valid(View())
      modifies this
      ensures View() == AfterReject(old(View()), vid, actor, reason) && Valid(View())
      ensures r == match RejectError(old(View()), vid, actor, reason)
                   case Some(e) => Err(e)
                   case None => Ok(View().versions[vid])
    {
      RejectKeepsValid(View(), vid, actor, reason);
      if actor == "" || reason == "" {
        return Err(InvalidArguments);
      }
      if vid !in versions || versions[vid].status != Pending {
        return Err(Unavailable);
      }
      var rejected := versions[vid].(status := Rejected, rejectionReason := Some(reason));
      versions := versions[vid := rejected];
      return Ok(rejected);
    }

    method Restore(id: Uuid, vid: Uuid, actor: string) returns (r: Result<Version, DocumentError>)
      requires Valid(View())
      modifies this
      ensures View() == AfterRestore(old(View()), id, vid, actor) && Valid(View())
      ensures r == match RestoreError(old(View()), id, vid, actor)
                   case Some(e) => Err(e)
                   case None => Ok(View().versions[vid])
    {
      RestoreKeepsValid(View(), id, vid, actor);
      if actor == "" {
        return Err(InvalidArguments);
      }
      if vid !in versions || id !in slots || versions[vid].slot != id || versions[vid].status != Accepted {
        return Err(Unavailable);
      }
      slots := slots[id := Activated(slots[id], vid)];
      return Ok(versions[vid]);
    }
  }

  // ------------------------------------------------------------------
  // Every operation keeps the registry consistent and only ever moves it forward
  // ------------------------------------------------------------------

  /** The fields of a version that nothing may alter once it is registered. */
  ghost predicate SameContent(v: Version, w: Version) {
    w == v.(status := w.status, classification := w.classification, rejectionReason := w.rejectionReason)
  }

  /** The fields of a slot that nothing may alter once it is added. */
  ghost predicate SameSlot(a: Slot, b: Slot) {
    b == a.(mode := b.mode, rowVersion := b.rowVersion, active := b.active, document := b.document)
  }

  ghost predicate VersionForward(v: Version, w: Version) {
    && SameContent(v, w)
    && (v.status != Pending ==> w == v)
  }

  ghost predicate SlotForward(a: Slot, b: Slot) {
    && SameSlot(a, b)
    && (a == b || a.rowVersion < b.rowVersion)
    && (a.active.Some? ==> b.active.Some?)
  }

  /**
   * From `r` to `r'` nothing disappears, no content changes, a decided version keeps its status, and a slot changes only
   * together with its row version.
   */
  ghost predicate Forward(r: Registry, r': Registry) {
    && r.order <= r'.order
    && (forall vid :: vid in r.versions ==> vid in r'.versions && VersionForward(r.versions[vid], r'.versions[vid]))
    && (forall id :: id in r.slots ==> id in r'.slots && SlotForward(r.slots[id], r'.slots[id]))
    && (forall id :: id in r.slotVersions ==> id in r'.slotVersions && r.slotVersions[id] <= r'.slotVersions[id])
  }

  /** One operation's progress: to a consistent registry, and only forward. */
  ghost predicate MovesOn(r: Registry, r': Registry) {
    Valid(r') && Forward(r, r')
  }

  lemma StandingStill(r: Registry)
    requires Valid(r)
    ensures MovesOn(r, r)
  {
  }

  lemma ForwardTrans(a: Registry, b: Registry, c: Registry)
    requires Forward(a, b) && Forward(b, c)
    ensures Forward(a, c)
  {
  }

  lemma AddForward(r: Registry, id: Uuid, app: Uuid, spec: SlotSpec)
    requires Valid(r) && id !in r.slots
    ensures Forward(r, AfterAdd(r, id, app, spec))
  {
  }

  lemma AddKeepsValid(r: Registry, id: Uuid, app: Uuid, spec: SlotSpec)
    requires Valid(r) && id !in r.slots
    ensures Valid(AfterAdd(r, id, app, spec))
  {
    var r' := AfterAdd(r, id, app, spec);
    forall i | i in r'.slots ensures SlotOk(r', i) { SlotOkAfterAdd(r, id, app, spec, i); }
    forall v | v in r'.versions ensures VersionOk(r', v) { VersionOkAfterAdd(r, id, app, spec, v); }
  }

  lemma SlotOkAfterAdd(r: Registry, id: Uuid, app: Uuid, spec: SlotSpec, i: Uuid)
    requires Valid(r) && id !in r.slots && i in AfterAdd(r, id, app, spec).slots
    ensures SlotOk(AfterAdd(r, id, app, spec), i)
  {
    if i in r.slots { assert SlotOk(r, i); }
  }

  lemma VersionOkAfterAdd(r: Registry, id: Uuid, app: Uuid, spec: SlotSpec, v: Uuid)
    requires Valid(r) && id !in r.slots && v in AfterAdd(r, id, app, spec).versions
    ensures VersionOk(AfterAdd(r, id, app, spec), v)
  {
    if v in r.versions { assert VersionOk(r, v); }
  }

  lemma OpenForward(r: Registry, app: Uuid, id: Uuid, mode: UploadMode, actor: string, reason: string)
    requires Valid(r)
    ensures Forward(r, AfterOpen(r, app, id, mode, actor, reason))
  {
  }

  lemma OpenKeepsValid(r: Registry, app: Uuid, id: Uuid, mode: UploadMode, actor: string, reason: string)
    requires Valid(r)
    ensures Valid(AfterOpen(r, app, id, mode, actor, reason))
  {
    var r' := AfterOpen(r, app, id, mode, actor, reason);
    forall i | i in r'.slots ensures SlotOk(r', i) { SlotOkAfterOpen(r, app, id, mode, actor, reason, i); }
    forall v | v in r'.versions ensures VersionOk(r', v) { VersionOkAfterOpen(r, app, id, mode, actor, reason, v); }
  }

  lemma SlotOkAfterOpen(r: Registry, app: Uuid, id: Uuid, mode: UploadMode, actor: string, reason: string, i: Uuid)
    requires Valid(r) && i in AfterOpen(r, app, id, mode, actor, reason).slots
    ensures SlotOk(AfterOpen(r, app, id, mode, actor, reason), i)
  {
    if i in r.slots { assert SlotOk(r, i); }
  }

  lemma VersionOkAfterOpen(r: Registry, app: Uuid, id: Uuid, mode: UploadMode, actor: string, reason: string, v: Uuid)
    requires Valid(r) && v in AfterOpen(r, app, id, mode, actor, reason).versions
    ensures VersionOk(AfterOpen(r, app, id, mode, actor, reason), v)
  {
    if v in r.versions { assert VersionOk(r, v); }
  }

  lemma RegisterForward(r: Registry, t: Ticket, record: StoredObjectRecord, name: string)
    requires Valid(r) && t.version !in r.versions
    ensures Forward(r, AfterRegister(r, t, record, name))
  {
    var r' := AfterRegister(r, t, record, name);
    forall vid | vid in r.versions ensures vid in r'.versions && VersionForward(r.versions[vid], r'.versions[vid]) {
      RegisterKeepsVersion(r, t, record, name, vid);
    }
    forall id | id in r.slots ensures id in r'.slots && SlotForward(r.slots[id], r'.slots[id]) {
      RegisterMovesSlot(r, t, record, name, id);
    }
  }

  lemma RegisterKeepsVersion(r: Registry, t: Ticket, record: StoredObjectRecord, name: string, vid: Uuid)
    requires Valid(r) && t.version !in r.versions && vid in r.versions
    ensures var r' := AfterRegister(r, t, record, name); vid in r'.versions && r'.versions[vid] == r.versions[vid]
  {
  }

  lemma RegisterMovesSlot(r: Registry, t: Ticket, record: StoredObjectRecord, name: string, id: Uuid)
    requires Valid(r) && id in r.slots
    ensures var r' := AfterRegister(r, t, record, name); id in r'.slots && SlotForward(r.slots[id], r'.slots[id])
  {
  }

  lemma RegisterKeepsValid(r: Registry, t: Ticket, record: StoredObjectRecord, name: string)
    requires Valid(r) && t.version !in r.versions
    ensures Valid(AfterRegister(r, t, record, name))
  {
    var r' := AfterRegister(r, t, record, name);
    forall i | i in r'.slots ensures SlotOk(r', i) { SlotOkAfterRegister(r, t, record, name, i); }
    forall v | v in r'.versions ensures VersionOk(r', v) { VersionOkAfterRegister(r, t, record, name, v); }
  }

  lemma SlotOkAfterRegister(r: Registry, t: Ticket, record: StoredObjectRecord, name: string, i: Uuid)
    requires Valid(r) && t.version !in r.versions && i in AfterRegister(r, t, record, name).slots
    ensures SlotOk(AfterRegister(r, t, record, name), i)
  {
    if i in r.slots { assert SlotOk(r, i); }
  }

  lemma VersionOkAfterRegister(r: Registry, t: Ticket, record: StoredObjectRecord, name: string, v: Uuid)
    requires Valid(r) && t.version !in r.versions && v in AfterRegister(r, t, record, name).versions
    ensures VersionOk(AfterRegister(r, t, record, name), v)
  {
    if v in r.versions {
      assert VersionOk(r, v);
    } else {
      assert SlotOk(r, t.slot.id);
    }
  }

  lemma AcceptForward(r: Registry, vid: Uuid, actor: string)
    requires Valid(r)
    ensures Forward(r, AfterAccept(r, vid, actor))
  {
  }

  lemma AcceptKeepsValid(r: Registry, vid: Uuid, actor: string)
    requires Valid(r)
    ensures Valid(AfterAccept(r, vid, actor))
  {
    var r' := AfterAccept(r, vid, actor);
    forall i | i in r'.slots ensures SlotOk(r', i) { SlotOkAfterAccept(r, vid, actor, i); }
    forall v | v in r'.versions ensures VersionOk(r', v) { VersionOkAfterAccept(r, vid, actor, v); }
  }

  lemma SlotOkAfterAccept(r: Registry, vid: Uuid, actor: string, i: Uuid)
    requires Valid(r) && i in AfterAccept(r, vid, actor).slots
    ensures SlotOk(AfterAccept(r, vid, actor), i)
  {
    if i in r.slots { assert SlotOk(r, i); }
    if vid in r.versions {
      assert VersionOk(r, vid) && SlotOk(r, r.versions[vid].slot);
    }
  }

  lemma VersionOkAfterAccept(r: Registry, vid: Uuid, actor: string, v: Uuid)
    requires Valid(r) && v in AfterAccept(r, vid, actor).versions
    ensures VersionOk(AfterAccept(r, vid, actor), v)
  {
    if v in r.versions { assert VersionOk(r, v); }
  }

  lemma RejectForward(r: Registry, vid: Uuid, actor: string, reason: string)
    requires Valid(r)
    ensures Forward(r, AfterReject(r, vid, actor, reason))
  {
  }

  lemma RejectKeepsValid(r: Registry, vid: Uuid, actor: string, reason: string)
    requires Valid(r)
    ensures Valid(AfterReject(r, vid, actor, reason))
  {
    var r' := AfterReject(r, vid, actor, reason);
    forall i | i in r'.slots ensures SlotOk(r', i) { SlotOkAfterReject(r, vid, actor, reason, i); }
    forall v | v in r'.versions ensures VersionOk(r', v) { VersionOkAfterReject(r, vid, actor, reason, v); }
  }

  lemma SlotOkAfterReject(r: Registry, vid: Uuid, actor: string, reason: string, i: Uuid)
    requires Valid(r) && i in AfterReject(r, vid, actor, reason).slots
    ensures SlotOk(AfterReject(r, vid, actor, reason), i)
  {
    if i in r.slots { assert SlotOk(r, i); }
  }

  lemma VersionOkAfterReject(r: Registry, vid: Uuid, actor: string, reason: string, v: Uuid)
    requires Valid(r) && v in AfterReject(r, vid, actor, reason).versions
    ensures VersionOk(AfterReject(r, vid, actor, reason), v)
  {
    if v in r.versions { assert VersionOk(r, v); }
  }

  lemma RestoreForward(r: Registry, id: Uuid, vid: Uuid, actor: string)
    requires Valid(r)
    ensures Forward(r, AfterRestore(r, id, vid, actor))
  {
  }

  lemma RestoreKeepsValid(r: Registry, id: Uuid, vid: Uuid, actor: string)
    requires Valid(r)
    ensures Valid(AfterRestore(r, id, vid, actor))
  {
    var r' := AfterRestore(r, id, vid, actor);
    forall i | i in r'.slots ensures SlotOk(r', i) { SlotOkAfterRestore(r, id, vid, actor, i); }
    forall v | v in r'.versions ensures VersionOk(r', v) { VersionOkAfterRestore(r, id, vid, actor, v); }
  }

  lemma SlotOkAfterRestore(r: Registry, id: Uuid, vid: Uuid, actor: string, i: Uuid)
    requires Valid(r) && i in AfterRestore(r, id, vid, actor).slots
    ensures SlotOk(AfterRestore(r, id, vid, actor), i)
  {
    if i in r.slots { assert SlotOk(r, i); }
    if vid in r.versions { assert VersionOk(r, vid); }
  }

  lemma VersionOkAfterRestore(r: Registry, id: Uuid, vid: Uuid, actor: string, v: Uuid)
    requires Valid(r) && v in AfterRestore(r, id, vid, actor).versions
    ensures VersionOk(AfterRestore(r, id, vid, actor), v)
  {
    if v in r.versions { assert VersionOk(r, v); }
  }

  lemma DecisionKeepsValid(r: Registry, d: Decision)
    requires Valid(r)
    ensures Valid(AfterDecision(r, d)) && Forward(r, AfterDecision(r, d))
  {
    match d
    case OpenSlot(app, slot, mode, actor, reason) =>
      OpenKeepsValid(r, app, slot, mode, actor, reason); OpenForward(r, app, slot, mode, actor, reason);
    case Accept(version, actor) => AcceptKeepsValid(r, version, actor); AcceptForward(r, version, actor);
    case Reject(version, actor, reason) =>
      RejectKeepsValid(r, version, actor, reason); RejectForward(r, version, actor, reason);
    case Restore(slot, version, actor) =>
      RestoreKeepsValid(r, slot, version, actor); RestoreForward(r, slot, version, actor);
  }

  lemma DecisionKeepsKeys(r: Registry, decision: Decision)
    requires Valid(r)
    ensures var r' := AfterDecision(r, decision);
            r'.versions.Keys == r.versions.Keys && r'.slots.Keys == r.slots.Keys
  {
    if decision.Accept? && decision.version in r.versions { assert VersionOk(r, decision.version); }
  }

  /** An accepted decision raises the row version of the slot it changes and leaves every other slot as it was. */
  lemma DecisionChangesOneSlot(r: Registry, d: Decision, id: Uuid)
    requires Valid(r) && id in r.slots
    ensures var r' := AfterDecision(r, d);
      && id in r'.slots
      && (DecidedSlot(r, d) == Some(id) ==> r'.slots[id].rowVersion == r.slots[id].rowVersion + 1)
      && (DecidedSlot(r, d) != Some(id) ==> r'.slots[id] == r.slots[id])
  {
    if d.Accept? && d.version in r.versions { assert VersionOk(r, d.version); }
  }

  lemma DecisionKeepsApplication(r: Registry, d: Decision, id: Uuid)
    requires Valid(r) && id in r.slots && id in AfterDecision(r, d).slots
    ensures AfterDecision(r, d).slots[id].app == r.slots[id].app
  {
    match d
    case OpenSlot(_, _, _, _, _) =>
    case Accept(version, _) =>
    case Reject(_, _, _) =>
    case Restore(_, _, _) =>
  }
}
