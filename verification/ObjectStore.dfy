/** The encrypted object store (app/documents/store.py) with a disk on which any step may fail. */
module ObjectStore {
  import opened Base
  import opened ObjectTypes
  import D = Documents

  const MAGIC := "EHFOD"
  const FORMAT_VERSION := 1

  /** The keys by version; the active version is one of them. */
  datatype Keyring = Keyring(active: nat, keys: map<nat, nat>)

  datatype FileName = ObjectFile(key: nat) | TemporaryFile(key: nat)

  type Index = set<(Uuid, PlaintextHash)>

  /** The operating-system call that fails while an object is written, if any. */
  datatype Fault = NoFault | WriteFails | RenameFails | SyncFails

  datatype Verdict = Clean | NotAPdf | Infected | ScannerDown

  datatype StoreError =
    | EmptyDocument
    | DuplicatePlaintext
    | StorageFailed
    | RegistrationFailed
    | IngestionFailed
    | MalwareDetected
    | MalwareUnavailable
    | IntegrityFailed

  function EnvelopeOf(ring: Keyring, plaintext: Bytes, binding: ObjectBinding, nonce: nat): Envelope
    requires ring.active in ring.keys
  {
    Envelope(MAGIC, FORMAT_VERSION, ring.active, nonce, Sealed(ring.keys[ring.active], nonce, plaintext, binding))
  }

  function RecordOf(ring: Keyring, plaintext: Bytes, binding: ObjectBinding, key: nat, nonce: nat): StoredObjectRecord
    requires ring.active in ring.keys
  {
    StoredObjectRecord(key, ring.active, FORMAT_VERSION, nonce, PlaintextHash(plaintext),
                       CiphertextHash(EnvelopeOf(ring, plaintext, binding, nonce)), |plaintext|)
  }

  /** What decryption yields: a file that is missing, altered, or bound elsewhere yields nothing. */
  function Decrypted(ring: Keyring, objects: map<FileName, Envelope>, record: StoredObjectRecord, binding: ObjectBinding)
    : Option<Bytes>
  {
    if ObjectFile(record.objectKey) !in objects then None
    else
      var e := objects[ObjectFile(record.objectKey)];
      if CiphertextHash(e) != record.ciphertextHash then None
      else if e.magic != MAGIC || e.formatVersion != record.envelopeVersion || e.keyVersion != record.keyVersion
              || e.nonce != record.nonce then None
      else if e.keyVersion !in ring.keys then None
      else if e.sealed.key != ring.keys[e.keyVersion] || e.sealed.nonce != e.nonce || e.sealed.aad != binding then None
      else if |e.sealed.plaintext| != record.byteSize || PlaintextHash(e.sealed.plaintext) != record.plaintextHash then None
      else Some(e.sealed.plaintext)
  }

  /** An object opens to the bytes that were stored, with the binding it was stored under and with no other. */
  lemma OnlyItsBindingOpens(
    ring: Keyring, objects: map<FileName, Envelope>, plaintext: Bytes, binding: ObjectBinding, key: nat, nonce: nat,
    other: ObjectBinding)
    requires ring.active in ring.keys
    requires ObjectFile(key) in objects && objects[ObjectFile(key)] == EnvelopeOf(ring, plaintext, binding, nonce)
    ensures Decrypted(ring, objects, RecordOf(ring, plaintext, binding, key, nonce), other)
            == if other == binding then Some(plaintext) else None
  {
  }

  /** Replacing the file by any other content makes the object unreadable, never readable as something else. */
  lemma TamperingIsDetected(
    ring: Keyring, objects: map<FileName, Envelope>, plaintext: Bytes, binding: ObjectBinding, key: nat, nonce: nat,
    used: ObjectBinding)
    requires ring.active in ring.keys
    ensures Decrypted(ring, objects, RecordOf(ring, plaintext, binding, key, nonce), used) ==
            if ObjectFile(key) in objects && objects[ObjectFile(key)] == EnvelopeOf(ring, plaintext, binding, nonce) && used == binding
            then Some(plaintext) else None
  {
    assert CiphertextHash(EnvelopeOf(ring, plaintext, binding, nonce)) == RecordOf(ring, plaintext, binding, key, nonce).ciphertextHash;
  }

  class EncryptedObjectStore {
    const keyring: Keyring
    var objects: map<FileName, Envelope>
    var quarantine: map<Uuid, Bytes>
    var plaintextHashes: Index

    constructor (keyring: Keyring)
      ensures this.keyring == keyring
      ensures objects == map[] && quarantine == map[] && plaintextHashes == {}
    {
      this.keyring := keyring;
      objects, quarantine, plaintextHashes := map[], map[], {};
    }

    /** Write a temporary file, rename it into place and flush the directory; a failure leaves neither file behind. */
    method EncryptAndPromote(plaintext: Bytes, binding: ObjectBinding, key: nat, nonce: nat, fault: Fault)
      returns (r: Result<StoredObjectRecord, StoreError>)
      requires keyring.active in keyring.keys
      requires ObjectFile(key) !in objects && TemporaryFile(key) !in objects
      modifies this`objects
      ensures fault != NoFault ==> r == Err(StorageFailed) && objects == old(objects)
      ensures fault == NoFault ==>
        && r == Ok(RecordOf(keyring, plaintext, binding, key, nonce))
        && objects == old(objects)[ObjectFile(key) := EnvelopeOf(keyring, plaintext, binding, nonce)]
    {
      var envelope := EnvelopeOf(keyring, plaintext, binding, nonce);
      var failed := fault == WriteFails;
      if !failed {
        objects := objects[TemporaryFile(key) := envelope];
        failed := fault == RenameFails;
      }
      if !failed {
        objects := (objects - {TemporaryFile(key)})[ObjectFile(key) := envelope];
        failed := fault == SyncFails;
      }
      if failed {
        objects := objects - {TemporaryFile(key)};
        objects := objects - {ObjectFile(key)};
        return Err(StorageFailed);
      }
      return Ok(RecordOf(keyring, plaintext, binding, key, nonce));
    }

    /** Store bytes under the lock and register them as the pending version of an upload; undo the file if that fails. */
    method StoreBytes(plaintext: Bytes, binding: ObjectBinding, key: nat, nonce: nat, fault: Fault,
                      repository: D.DocumentSlotRepository, ticket: D.Ticket, name: string)
      returns (r: Result<D.Version, StoreError>)
      requires keyring.active in keyring.keys
      requires ObjectFile(key) !in objects && TemporaryFile(key) !in objects
      requires D.Valid(repository.View()) && ticket.version !in repository.versions
      modifies this`objects, this`plaintextHashes, repository
      ensures var record := RecordOf(keyring, plaintext, binding, key, nonce);
              var error := StoreFailure(old(plaintextHashes), old(repository.View()), plaintext, binding, fault, ticket);
        && (error.Some? ==> r == Err(error.value) && objects == old(objects) && plaintextHashes == old(plaintextHashes)
                            && repository.View() == old(repository.View()))
        && (error.None? ==>
              && r == Ok(D.NewVersion(old(repository.View()), ticket, record, name))
              && objects == old(objects)[ObjectFile(key) := EnvelopeOf(keyring, plaintext, binding, nonce)]
              && plaintextHashes == old(plaintextHashes) + {(binding.app, PlaintextHash(plaintext))}
              && repository.View() == D.AfterRegister(old(repository.View()), ticket, record, name))
    {
      if plaintext == [] {
        return Err(EmptyDocument);
      }
      var hash := PlaintextHash(plaintext);
      if (binding.app, hash) in plaintextHashes {
        return Err(DuplicatePlaintext);
      }
      var stored := EncryptAndPromote(plaintext, binding, key, nonce, fault);
      if stored.Err? {
        return Err(stored.error);
      }
      var registered := repository.RegisterPending(ticket, stored.value, name);
      if registered.Err? {
        objects := objects - {ObjectFile(key)};
        return Err(RegistrationFailed);
      }
      plaintextHashes := plaintextHashes + {(binding.app, hash)};
      return Ok(registered.value);
    }

    /** Quarantine, validate, scan and store; the quarantine file goes in every case. */
    method IngestFile(source: Bytes, staging: Uuid, readable: bool, verdict: Verdict, binding: ObjectBinding, key: nat,
                      nonce: nat, fault: Fault, repository: D.DocumentSlotRepository, ticket: D.Ticket, name: string)
      returns (r: Result<D.Version, StoreError>)
      requires keyring.active in keyring.keys && staging !in quarantine
      requires ObjectFile(key) !in objects && TemporaryFile(key) !in objects
      requires D.Valid(repository.View()) && ticket.version !in repository.versions
      modifies this, repository
      ensures quarantine == old(quarantine)
      ensures var record := RecordOf(keyring, source, binding, key, nonce);
              var error := IngestFailure(readable, verdict, old(plaintextHashes), old(repository.View()), source, binding,
                                         fault, ticket);
        && (error.Some? ==> r == Err(error.value) && objects == old(objects) && plaintextHashes == old(plaintextHashes)
                            && repository.View() == old(repository.View()))
        && (error.None? ==>
              && r == Ok(D.NewVersion(old(repository.View()), ticket, record, name))
              && objects == old(objects)[ObjectFile(key) := EnvelopeOf(keyring, source, binding, nonce)]
              && plaintextHashes == old(plaintextHashes) + {(binding.app, PlaintextHash(source))}
              && repository.View() == D.AfterRegister(old(repository.View()), ticket, record, name))
    {
      if !readable {
        return Err(IngestionFailed);
      }
      quarantine := quarantine[staging := source];
      if verdict == NotAPdf {
        r := Err(IngestionFailed);
      } else if verdict == Infected {
        r := Err(MalwareDetected);
      } else if verdict == ScannerDown {
        r := Err(MalwareUnavailable);
      } else {
        r := StoreBytes(quarantine[staging], binding, key, nonce, fault, repository, ticket, name);
      }
      quarantine := quarantine - {staging};
    }

    method DecryptBytes(record: StoredObjectRecord, binding: ObjectBinding) returns (r: Result<Bytes, StoreError>)
      ensures r == match Decrypted(keyring, objects, record, binding)
                   case Some(plaintext) => Ok(plaintext)
                   case None => Err(IntegrityFailed)
    {
      if ObjectFile(record.objectKey) !in objects {
        return Err(IntegrityFailed);
      }
      var envelope := objects[ObjectFile(record.objectKey)];
      if CiphertextHash(envelope) != record.ciphertextHash {
        return Err(IntegrityFailed);
      }
      if envelope.magic != MAGIC || envelope.formatVersion != record.envelopeVersion
         || envelope.keyVersion != record.keyVersion || envelope.nonce != record.nonce
         || envelope.keyVersion !in keyring.keys {
        return Err(IntegrityFailed);
      }
      var sealed := envelope.sealed;
      if sealed.key != keyring.keys[envelope.keyVersion] || sealed.nonce != envelope.nonce || sealed.aad != binding {
        return Err(IntegrityFailed);
      }
      if |sealed.plaintext| != record.byteSize || PlaintextHash(sealed.plaintext) != record.plaintextHash {
        return Err(IntegrityFailed);
      }
      return Ok(sealed.plaintext);
    }
  }

  /** Why bytes that have passed validation and scanning are not stored, in the order the store finds out. */
  function StoreFailure(index: Index, docs: D.Registry, plaintext: Bytes, binding: ObjectBinding, fault: Fault,
                        ticket: D.Ticket): Option<StoreError>
  {
    if plaintext == [] then Some(EmptyDocument)
    else if (binding.app, PlaintextHash(plaintext)) in index then Some(DuplicatePlaintext)
    else if fault != NoFault then Some(StorageFailed)
    else if !D.Registrable(docs, ticket) then Some(RegistrationFailed)
    else None
  }

  function IngestFailure(readable: bool, verdict: Verdict, index: Index, docs: D.Registry, source: Bytes,
                         binding: ObjectBinding, fault: Fault, ticket: D.Ticket): Option<StoreError>
  {
    if !readable || verdict == NotAPdf then Some(IngestionFailed)
    else if verdict == Infected then Some(MalwareDetected)
    else if verdict == ScannerDown then Some(MalwareUnavailable)
    else StoreFailure(index, docs, source, binding, fault, ticket)
  }
}
