/**
 * Document upload over the registry and the encrypted store (app/applicant/documents.py, ApplicantDocumentService.upload).
 * Uploads of any number of applicants interleave with each other and with the administrators' decisions.
 */
module Upload {
  import opened Base
  import opened ObjectTypes
  import opened ObjectStore
  import opened SlotRules
  import D = Documents

  // ------------------------------------------------------------------
  // One upload, start to end
  // ------------------------------------------------------------------

  datatype UploadError = SlotUnavailable | UploadRejected | ScannerUnavailable | AlreadySubmitted

  function Reported(e: StoreError): UploadError {
    match e
    case MalwareUnavailable => ScannerUnavailable
    case DuplicatePlaintext => AlreadySubmitted
    case _ => UploadRejected
  }

  /** Everything the outside world decides about one upload. */
  datatype World = World(source: Bytes, readable: bool, verdict: Verdict, fault: Fault, nonce: nat, name: string)

  class ApplicantDocumentService {
    const repository: D.DocumentSlotRepository
    const objectStore: EncryptedObjectStore

    constructor (repository: D.DocumentSlotRepository, objectStore: EncryptedObjectStore)
      ensures this.repository == repository && this.objectStore == objectStore
    {
      this.repository, this.objectStore := repository, objectStore;
    }

    method Upload(app: Uuid, slot: Uuid, row: nat, world: World, uuid: Uuid) returns (r: Result<D.Version, UploadError>)
      requires objectStore.keyring.active in objectStore.keyring.keys
      requires D.Valid(repository.View()) && uuid !in repository.versions && uuid !in objectStore.quarantine
      requires ObjectFile(uuid) !in objectStore.objects && TemporaryFile(uuid) !in objectStore.objects
      modifies repository, objectStore
      ensures objectStore.quarantine == old(objectStore.quarantine)
      ensures r.Err? ==>
        && repository.View() == old(repository.View())
        && objectStore.objects == old(objectStore.objects)
        && objectStore.plaintextHashes == old(objectStore.plaintextHashes)
      ensures r.Ok? <==> old(D.UploadAllowed(repository.View(), app, slot, row))
                         && world.readable && world.verdict == Clean && world.fault == NoFault && world.source != []
                         && (app, PlaintextHash(world.source)) !in old(objectStore.plaintextHashes)
      ensures !old(D.UploadAllowed(repository.View(), app, slot, row)) ==> r == Err(SlotUnavailable)
      ensures old(D.UploadAllowed(repository.View(), app, slot, row)) && r.Err? ==>
        r.error == if world.readable && world.verdict == ScannerDown then ScannerUnavailable
                   else if world.readable && world.verdict == Clean && world.source != []
                           && (app, PlaintextHash(world.source)) in old(objectStore.plaintextHashes) then AlreadySubmitted
                   else UploadRejected
      ensures r.Ok? ==>
        && Decrypted(objectStore.keyring, objectStore.objects, r.value.record, r.value.binding) == Some(world.source)
        && objectStore.plaintextHashes == old(objectStore.plaintextHashes) + {(app, PlaintextHash(world.source))}
        && objectStore.objects.Keys == old(objectStore.objects).Keys + {ObjectFile(r.value.record.objectKey)}
        && r.value.status == D.Pending && r.value.slot == slot && r.value.binding.app == app
        && repository.View() ==
             D.AfterRegister(old(repository.View()), D.TicketFor(old(repository.View()), slot, row, uuid),
                             r.value.record, world.name)
    {
      var allowed := repository.RequireUpload(app, slot, row);
      if allowed.Err? {
        return Err(SlotUnavailable);
      }
      assert D.SlotOk(repository.View(), slot);
      var ticket := D.TicketFor(D.Registry(repository.order, repository.slots, repository.versions, repository.slotVersions),
                              slot, row, uuid);
      var stored := objectStore.IngestFile(world.source, uuid, world.readable, world.verdict, D.BindingOf(ticket), uuid,
                                           world.nonce, world.fault, repository, ticket, world.name);
      if stored.Err? {
        return Err(Reported(stored.error));
      }
      return Ok(stored.value);
    }
  }

  // ------------------------------------------------------------------
  // Interleaved uploads
  // ------------------------------------------------------------------

  /** An upload in flight has a ticket, and a quarantine file once its bytes are staged. */
  datatype Vault = Vault(
    docs: D.Registry,
    objects: map<FileName, Envelope>,
    quarantine: map<Uuid, Bytes>,
    index: Index,
    tickets: map<Uuid, D.Ticket>,
    next: Uuid)

  const EMPTY_VAULT := Vault(D.EMPTY, map[], map[], {}, map[], 0)

  datatype Action =
    | AddSlot(app: Uuid, spec: D.SlotSpec)
    | Decide(decision: D.Decision)
    | Begin(app: Uuid, slot: Uuid, row: nat)
    | Stage(ticket: Uuid, source: Bytes)
    | Finish(ticket: Uuid, verdict: Verdict, fault: Fault, nonce: nat, name: string)
    | Fail(ticket: Uuid)

  predicate Finishable(v: Vault, ticket: Uuid) {
    ticket in v.tickets && ticket in v.quarantine
    && (v.tickets[ticket].slot.id in v.docs.slots ==> v.tickets[ticket].slot.id in v.docs.slotVersions)
  }

  function Outcome(v: Vault, ticket: Uuid, verdict: Verdict, fault: Fault): Option<StoreError>
    requires Finishable(v, ticket)
  {
    IngestFailure(true, verdict, v.index, v.docs, v.quarantine[ticket], D.BindingOf(v.tickets[ticket]), fault,
                  v.tickets[ticket])
  }

  function Finished(ring: Keyring, v: Vault, ticket: Uuid, verdict: Verdict, fault: Fault, nonce: nat, name: string): Vault
    requires ring.active in ring.keys && Finishable(v, ticket)
  {
    var t, source := v.tickets[ticket], v.quarantine[ticket];
    var binding := D.BindingOf(t);
    var done := v.(tickets := v.tickets - {ticket}, quarantine := v.quarantine - {ticket}, next := v.next + 1);
    if Outcome(v, ticket, verdict, fault).Some? then done
    else done.(
      docs := D.AfterRegister(v.docs, t, RecordOf(ring, source, binding, v.next, nonce), name),
      objects := v.objects[ObjectFile(v.next) := EnvelopeOf(ring, source, binding, nonce)],
      index := v.index + {(binding.app, PlaintextHash(source))})
  }

  function Step(ring: Keyring, v: Vault, a: Action): Vault
    requires ring.active in ring.keys
  {
    match a
    case AddSlot(app, spec) => v.(docs := D.AfterAdd(v.docs, v.next, app, spec), next := v.next + 1)
    case Decide(decision) => v.(docs := D.AfterDecision(v.docs, decision))
    case Begin(app, slot, row) =>
      if D.UploadAllowed(v.docs, app, slot, row)
      then v.(tickets := v.tickets[v.next := D.TicketFor(v.docs, slot, row, v.next)], next := v.next + 3)
      else v
    case Stage(ticket, source) =>
      if ticket in v.tickets && ticket !in v.quarantine then v.(quarantine := v.quarantine[ticket := source]) else v
    case Finish(ticket, verdict, fault, nonce, name) =>
      if Finishable(v, ticket) then Finished(ring, v, ticket, verdict, fault, nonce, name) else v
    case Fail(ticket) => v.(tickets := v.tickets - {ticket}, quarantine := v.quarantine - {ticket})
  }

  function Run(ring: Keyring, actions: seq<Action>): Vault
    requires ring.active in ring.keys
  {
    if actions == [] then EMPTY_VAULT else Step(ring, Run(ring, actions[..|actions| - 1]), actions[|actions| - 1])
  }

  // ------------------------------------------------------------------
  // Disk, index and registry agree in every reachable state
  // ------------------------------------------------------------------

  /** A registered version has its own file, and the file opens to the document the version's hash names. */
  ghost predicate Kept(ring: Keyring, v: Vault, id: Uuid)
    requires id in v.docs.versions
  {
    var w := v.docs.versions[id];
    && ObjectFile(w.record.objectKey) in v.objects
    && (w.binding.app, w.record.plaintextHash) in v.index
    && Decrypted(ring, v.objects, w.record, w.binding) == Some(w.record.plaintextHash.content)
  }

  /** Two versions share no file, and within an application no document. */
  ghost predicate Apart(docs: D.Registry, a: Uuid, b: Uuid)
    requires a in docs.versions && b in docs.versions
  {
    var x, y := docs.versions[a], docs.versions[b];
    x.record.objectKey != y.record.objectKey
    && (x.binding.app == y.binding.app ==> x.record.plaintextHash != y.record.plaintextHash)
  }

  ghost predicate NamesFile(docs: D.Registry, id: Uuid, file: FileName) {
    id in docs.versions && file == ObjectFile(docs.versions[id].record.objectKey)
  }

  ghost predicate NamesDocument(docs: D.Registry, id: Uuid, entry: (Uuid, PlaintextHash)) {
    id in docs.versions && entry == (docs.versions[id].binding.app, docs.versions[id].record.plaintextHash)
  }

  ghost predicate Owned(docs: D.Registry, file: FileName) {
    exists id :: NamesFile(docs, id, file)
  }

  ghost predicate Listed(docs: D.Registry, entry: (Uuid, PlaintextHash)) {
    exists id :: NamesDocument(docs, id, entry)
  }

  ghost predicate Agree(ring: Keyring, v: Vault) {
    && (forall id {:trigger Kept(ring, v, id)} :: id in v.docs.versions ==> Kept(ring, v, id))
    && (forall a, b {:trigger Apart(v.docs, a, b)} ::
          a in v.docs.versions && b in v.docs.versions && a != b ==> Apart(v.docs, a, b))
    && (forall file {:trigger Owned(v.docs, file)} :: file in v.objects ==> Owned(v.docs, file))
    && (forall entry {:trigger Listed(v.docs, entry)} :: entry in v.index ==> Listed(v.docs, entry))
  }

  ghost predicate Bounded(v: Vault) {
    && (forall id :: id in v.docs.slots ==> id < v.next)
    && (forall id :: id in v.docs.versions ==> id < v.next)
    && (forall file :: file in v.objects ==> file.ObjectFile? && file.key < v.next)
    && (forall t :: t in v.tickets ==> t < v.next && v.tickets[t].version == t && t !in v.docs.versions)
    && (forall t :: t in v.quarantine ==> t in v.tickets)
  }

  ghost predicate Fresh(v: Vault) {
    D.Valid(v.docs) && Bounded(v)
  }

  ghost predicate Inv(ring: Keyring, v: Vault) {
    Fresh(v) && Agree(ring, v)
  }

  /** The same versions, with the same files and bindings. */
  ghost predicate SameRecords(docs: D.Registry, docs': D.Registry) {
    && docs'.versions.Keys == docs.versions.Keys
    && forall id :: id in docs.versions ==> docs'.versions[id].record == docs.versions[id].record
                                            && docs'.versions[id].binding == docs.versions[id].binding
  }

  lemma ForwardKeepsRecords(docs: D.Registry, docs': D.Registry)
    requires D.Forward(docs, docs') && docs'.versions.Keys == docs.versions.Keys
    ensures SameRecords(docs, docs')
  {
    forall id | id in docs.versions
      ensures docs'.versions[id].record == docs.versions[id].record && docs'.versions[id].binding == docs.versions[id].binding
    {
      assert D.VersionForward(docs.versions[id], docs'.versions[id]);
    }
  }

  lemma SameVersionsAgree(ring: Keyring, v: Vault, v': Vault)
    requires Agree(ring, v) && SameRecords(v.docs, v'.docs)
    requires v'.objects == v.objects && v'.index == v.index
    ensures Agree(ring, v')
  {
    forall id | id in v'.docs.versions ensures Kept(ring, v', id) { assert Kept(ring, v, id); }
    forall a, b | a in v'.docs.versions && b in v'.docs.versions && a != b ensures Apart(v'.docs, a, b) {
      assert Apart(v.docs, a, b);
    }
    forall file | file in v'.objects ensures Owned(v'.docs, file) {
      assert Owned(v.docs, file);
      var id :| NamesFile(v.docs, id, file);
      assert NamesFile(v'.docs, id, file);
    }
    forall entry | entry in v'.index ensures Listed(v'.docs, entry) {
      assert Listed(v.docs, entry);
      var id :| NamesDocument(v.docs, id, entry);
      assert NamesDocument(v'.docs, id, entry);
    }
  }

  /** A step of the registry alone. */
  lemma RegistryStep(ring: Keyring, v: Vault, a: Action)
    requires ring.active in ring.keys && Fresh(v) && (a.AddSlot? || a.Decide?)
    ensures Fresh(Step(ring, v, a)) && D.Forward(v.docs, Step(ring, v, a).docs)
    ensures SameRecords(v.docs, Step(ring, v, a).docs)
  {
    var docs' := Step(ring, v, a).docs;
    if a.AddSlot? {
      D.AddKeepsValid(v.docs, v.next, a.app, a.spec);
      D.AddForward(v.docs, v.next, a.app, a.spec);
    } else {
      D.DecisionKeepsValid(v.docs, a.decision);
      D.DecisionKeepsKeys(v.docs, a.decision);
    }
    ForwardKeepsRecords(v.docs, docs');
  }

  /** A step that leaves the registry alone. */
  lemma TransferStep(ring: Keyring, v: Vault, a: Action)
    requires ring.active in ring.keys && Fresh(v) && (a.Begin? || a.Stage? || a.Fail?)
    ensures Fresh(Step(ring, v, a)) && Step(ring, v, a).docs == v.docs
  {
  }

  lemma FinishKeepsRegistry(docs: D.Registry, t: D.Ticket, record: StoredObjectRecord, name: string)
    requires D.Valid(docs) && t.version !in docs.versions
    ensures D.MovesOn(docs, D.AfterRegister(docs, t, record, name))
  {
    D.RegisterKeepsValid(docs, t, record, name);
    D.RegisterForward(docs, t, record, name);
  }

  lemma FinishMovesOn(ring: Keyring, v: Vault, a: Action)
    requires ring.active in ring.keys && Fresh(v) && a.Finish? && Finishable(v, a.ticket)
    ensures D.MovesOn(v.docs, Step(ring, v, a).docs)
  {
    var t := v.tickets[a.ticket];
    var record := RecordOf(ring, v.quarantine[a.ticket], D.BindingOf(t), v.next, a.nonce);
    D.StandingStill(v.docs);
    FinishKeepsRegistry(v.docs, t, record, a.name);
    if Outcome(v, a.ticket, a.verdict, a.fault).None? {
      assert Step(ring, v, a).docs == D.AfterRegister(v.docs, t, record, a.name);
    } else {
      assert Step(ring, v, a).docs == v.docs;
    }
  }

  lemma FinishKeepsFresh(ring: Keyring, v: Vault, a: Action)
    requires ring.active in ring.keys && Fresh(v) && a.Finish? && Finishable(v, a.ticket)
    ensures Fresh(Step(ring, v, a)) && D.Forward(v.docs, Step(ring, v, a).docs)
  {
    FinishMovesOn(ring, v, a);
    FinishKeepsBounded(ring, v, a);
  }

  lemma FinishKeepsBounded(ring: Keyring, v: Vault, a: Action)
    requires ring.active in ring.keys && Bounded(v) && a.Finish? && Finishable(v, a.ticket)
    ensures Bounded(Step(ring, v, a))
  {
  }

  lemma RegisteredVersions(docs: D.Registry, t: D.Ticket, record: StoredObjectRecord, name: string)
    requires D.Valid(docs) && D.Registrable(docs, t) && t.version !in docs.versions
    ensures var docs' := D.AfterRegister(docs, t, record, name);
      && docs'.versions.Keys == docs.versions.Keys + {t.version}
      && (forall id :: id in docs.versions ==> docs'.versions[id] == docs.versions[id])
      && docs'.versions[t.version].record == record && docs'.versions[t.version].binding == D.BindingOf(t)
  {
  }

  lemma FinishKeepsAgree(ring: Keyring, v: Vault, a: Action)
    requires ring.active in ring.keys && Inv(ring, v) && a.Finish? && Finishable(v, a.ticket)
    requires Outcome(v, a.ticket, a.verdict, a.fault).None?
    ensures Agree(ring, Step(ring, v, a))
  {
    var v' := Step(ring, v, a);
    var t, source := v.tickets[a.ticket], v.quarantine[a.ticket];
    var record := RecordOf(ring, source, D.BindingOf(t), v.next, a.nonce);
    RegisteredVersions(v.docs, t, record, a.name);
    OnlyItsBindingOpens(ring, v'.objects, source, D.BindingOf(t), v.next, a.nonce, D.BindingOf(t));
    forall id | id in v'.docs.versions ensures Kept(ring, v', id) {
      if id != t.version { assert Kept(ring, v, id); }
    }
    forall x, y | x in v'.docs.versions && y in v'.docs.versions && x != y ensures Apart(v'.docs, x, y) {
      FinishKeepsApart(ring, v, a, x, y);
    }
    forall file | file in v'.objects ensures Owned(v'.docs, file) {
      if file == ObjectFile(v.next) {
        assert NamesFile(v'.docs, t.version, file);
      } else {
        assert Owned(v.docs, file);
        var id :| NamesFile(v.docs, id, file);
        assert NamesFile(v'.docs, id, file);
      }
    }
    forall entry | entry in v'.index ensures Listed(v'.docs, entry) {
      if entry in v.index {
        assert Listed(v.docs, entry);
        var id :| NamesDocument(v.docs, id, entry);
        assert NamesDocument(v'.docs, id, entry);
      } else {
        assert NamesDocument(v'.docs, t.version, entry);
      }
    }
  }

  lemma FinishKeepsApart(ring: Keyring, v: Vault, a: Action, x: Uuid, y: Uuid)
    requires ring.active in ring.keys && Inv(ring, v) && a.Finish? && Finishable(v, a.ticket)
    requires Outcome(v, a.ticket, a.verdict, a.fault).None?
    requires x in Step(ring, v, a).docs.versions && y in Step(ring, v, a).docs.versions && x != y
    ensures Apart(Step(ring, v, a).docs, x, y)
  {
    var t := v.tickets[a.ticket];
    RegisteredVersions(v.docs, t, RecordOf(ring, v.quarantine[a.ticket], D.BindingOf(t), v.next, a.nonce), a.name);
    if x in v.docs.versions { assert Kept(ring, v, x); }
    if y in v.docs.versions { assert Kept(ring, v, y); }
    if x in v.docs.versions && y in v.docs.versions { assert Apart(v.docs, x, y); }
  }

  lemma StepKeepsInv(ring: Keyring, v: Vault, a: Action)
    requires ring.active in ring.keys && Inv(ring, v)
    ensures Inv(ring, Step(ring, v, a))
    ensures D.Forward(v.docs, Step(ring, v, a).docs)
  {
    if a.AddSlot? || a.Decide? {
      RegistryStep(ring, v, a);
      SameVersionsAgree(ring, v, Step(ring, v, a));
    } else if a.Finish? {
      FinishStep(ring, v, a);
    } else {
      TransferStep(ring, v, a);
      SameVersionsAgree(ring, v, Step(ring, v, a));
    }
  }

  lemma FinishStep(ring: Keyring, v: Vault, a: Action)
    requires ring.active in ring.keys && Inv(ring, v) && a.Finish?
    ensures Inv(ring, Step(ring, v, a))
    ensures D.Forward(v.docs, Step(ring, v, a).docs)
  {
    if Finishable(v, a.ticket) {
      FinishKeepsFresh(ring, v, a);
      if Outcome(v, a.ticket, a.verdict, a.fault).None? {
        FinishKeepsAgree(ring, v, a);
      } else {
        SameVersionsAgree(ring, v, Step(ring, v, a));
      }
    }
  }

  lemma {:induction false} Reachable(ring: Keyring, actions: seq<Action>)
    requires ring.active in ring.keys
    ensures Inv(ring, Run(ring, actions))
  {
    if actions == [] {
      D.EmptyIsValid();
    } else {
      Reachable(ring, actions[..|actions| - 1]);
      StepKeepsInv(ring, Run(ring, actions[..|actions| - 1]), actions[|actions| - 1]);
    }
  }

  // ------------------------------------------------------------------
  // What that means
  // ------------------------------------------------------------------

  ghost function FilesNamed(docs: D.Registry): set<FileName> {
    set id | id in docs.versions :: ObjectFile(docs.versions[id].record.objectKey)
  }

  ghost function DocumentsNamed(docs: D.Registry): Index {
    set id | id in docs.versions :: (docs.versions[id].binding.app, docs.versions[id].record.plaintextHash)
  }

  /**
   * The files on disk are exactly those of registered versions, one each, the duplicate index is exactly their
   * (application, hash) pairs, no application has one document twice, and no upload that is over left a quarantine file.
   */
  ghost predicate InAgreement(v: Vault) {
    && v.objects.Keys == FilesNamed(v.docs)
    && v.index == DocumentsNamed(v.docs)
    && v.quarantine.Keys <= v.tickets.Keys
    && (forall a, b :: a in v.docs.versions && b in v.docs.versions && a != b ==>
          && v.docs.versions[a].record.objectKey != v.docs.versions[b].record.objectKey
          && (v.docs.versions[a].binding.app == v.docs.versions[b].binding.app ==>
                v.docs.versions[a].record.plaintextHash != v.docs.versions[b].record.plaintextHash))
  }

  lemma AgreementMeans(ring: Keyring, v: Vault)
    requires Agree(ring, v) && v.quarantine.Keys <= v.tickets.Keys
    ensures InAgreement(v)
  {
    FilesAreThoseNamed(ring, v);
    IndexIsThatNamed(ring, v);
    forall a, b | a in v.docs.versions && b in v.docs.versions && a != b ensures Apart(v.docs, a, b) {}
  }

  lemma DiskIndexAndRegistryAgree(ring: Keyring, actions: seq<Action>)
    requires ring.active in ring.keys
    ensures InAgreement(Run(ring, actions))
  {
    Reachable(ring, actions);
    AgreementMeans(ring, Run(ring, actions));
  }

  lemma FilesAreThoseNamed(ring: Keyring, v: Vault)
    requires Agree(ring, v)
    ensures v.objects.Keys == FilesNamed(v.docs)
  {
    forall id | id in v.docs.versions ensures ObjectFile(v.docs.versions[id].record.objectKey) in v.objects {
      assert Kept(ring, v, id);
    }
    forall file | file in v.objects ensures file in FilesNamed(v.docs) {
      assert Owned(v.docs, file);
    }
  }

  lemma IndexIsThatNamed(ring: Keyring, v: Vault)
    requires Agree(ring, v)
    ensures v.index == DocumentsNamed(v.docs)
  {
    forall id | id in v.docs.versions
      ensures (v.docs.versions[id].binding.app, v.docs.versions[id].record.plaintextHash) in v.index
    {
      assert Kept(ring, v, id);
    }
    forall entry | entry in v.index ensures entry in DocumentsNamed(v.docs) {
      assert Listed(v.docs, entry);
    }
  }

  function RunFrom(ring: Keyring, v: Vault, actions: seq<Action>): Vault
    requires ring.active in ring.keys
  {
    if actions == [] then v
    else Step(ring, RunFrom(ring, v, actions[..|actions| - 1]), actions[|actions| - 1])
  }

  lemma {:induction false} RunFromKeepsInv(ring: Keyring, v: Vault, actions: seq<Action>)
    requires ring.active in ring.keys && Inv(ring, v)
    ensures Inv(ring, RunFrom(ring, v, actions)) && D.Forward(v.docs, RunFrom(ring, v, actions).docs)
  {
    if actions != [] {
      var prior := RunFrom(ring, v, actions[..|actions| - 1]);
      RunFromKeepsInv(ring, v, actions[..|actions| - 1]);
      StepKeepsInv(ring, prior, actions[|actions| - 1]);
      D.ForwardTrans(v.docs, prior.docs, RunFrom(ring, v, actions).docs);
    }
  }

  /** The bytes of an upload that succeeded come back whenever its version is decrypted, however the run goes on. */
  lemma UploadedBytesComeBack(ring: Keyring, before: seq<Action>, a: Action, after: seq<Action>)
    requires ring.active in ring.keys && a.Finish?
    requires Finishable(Run(ring, before), a.ticket) && Outcome(Run(ring, before), a.ticket, a.verdict, a.fault).None?
    ensures var v := RunFrom(ring, Step(ring, Run(ring, before), a), after);
            var id := Run(ring, before).tickets[a.ticket].version;
      && id in v.docs.versions
      && Decrypted(ring, v.objects, v.docs.versions[id].record, v.docs.versions[id].binding)
         == Some(Run(ring, before).quarantine[a.ticket])
  {
    var v := Run(ring, before);
    Reachable(ring, before);
    StepKeepsInv(ring, v, a);
    FinishedOpens(ring, v, a);
    StaysReadable(ring, Step(ring, v, a), after, v.tickets[a.ticket].version, v.quarantine[a.ticket]);
  }

  /** The version of a successful upload decrypts to what was staged. */
  lemma FinishedOpens(ring: Keyring, v: Vault, a: Action)
    requires ring.active in ring.keys && Inv(ring, v) && a.Finish?
    requires Finishable(v, a.ticket) && Outcome(v, a.ticket, a.verdict, a.fault).None?
    ensures var v', id := Step(ring, v, a), v.tickets[a.ticket].version;
      id in v'.docs.versions && v'.docs.versions[id].record.plaintextHash == PlaintextHash(v.quarantine[a.ticket])
  {
    var t := v.tickets[a.ticket];
    RegisteredVersions(v.docs, t, RecordOf(ring, v.quarantine[a.ticket], D.BindingOf(t), v.next, a.nonce), a.name);
  }

  /** A registered version stays, and opens to the bytes of its hash, however the run goes on. */
  lemma StaysReadable(ring: Keyring, v: Vault, after: seq<Action>, id: Uuid, bytes: Bytes)
    requires ring.active in ring.keys && Inv(ring, v)
    requires id in v.docs.versions && v.docs.versions[id].record.plaintextHash == PlaintextHash(bytes)
    ensures var v' := RunFrom(ring, v, after);
      && id in v'.docs.versions
      && Decrypted(ring, v'.objects, v'.docs.versions[id].record, v'.docs.versions[id].binding) == Some(bytes)
  {
    var v' := RunFrom(ring, v, after);
    RunFromKeepsInv(ring, v, after);
    assert D.VersionForward(v.docs.versions[id], v'.docs.versions[id]);
    assert Kept(ring, v', id);
  }

  /** An upload in flight is stored exactly if it is clean and not empty, the disk works, it is new, and its slot still waits for it. */
  lemma FinishSucceedsIff(v: Vault, ticket: Uuid, verdict: Verdict, fault: Fault)
    requires Finishable(v, ticket)
    ensures Outcome(v, ticket, verdict, fault).None? <==>
      && verdict == Clean && fault == NoFault && v.quarantine[ticket] != []
      && (v.tickets[ticket].slot.app, PlaintextHash(v.quarantine[ticket])) !in v.index
      && OpenForUpload(v.docs, v.tickets[ticket].slot.app, v.tickets[ticket].slot.id, v.tickets[ticket].expected)
  {
    UploadAllowedIff(v.docs, v.tickets[ticket].slot.app, v.tickets[ticket].slot.id, v.tickets[ticket].expected);
  }
}
