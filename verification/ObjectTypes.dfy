/** The value types of the encrypted object store (app/documents/store.py:38-73). */
module ObjectTypes {
  import opened Base

  type Bytes = seq<bv8>

  /** SHA-256 of a document's bytes, taken as injective. */
  datatype PlaintextHash = PlaintextHash(content: Bytes)

  datatype ObjectBinding = ObjectBinding(app: Uuid, document: Uuid, version: Uuid, objectId: Uuid)

  /** What the file of an object holds: a header, and a ciphertext as an ideal AEAD produces it. */
  datatype Envelope = Envelope(magic: string, formatVersion: nat, keyVersion: nat, nonce: nat, sealed: Sealed)

  /** An AES-GCM ciphertext; it opens only under the key, nonce and associated data it was sealed with. */
  datatype Sealed = Sealed(key: nat, nonce: nat, plaintext: Bytes, aad: ObjectBinding)

  datatype CiphertextHash = CiphertextHash(content: Envelope)

  datatype StoredObjectRecord = StoredObjectRecord(
    objectKey: nat,
    keyVersion: nat,
    envelopeVersion: nat,
    nonce: nat,
    plaintextHash: PlaintextHash,
    ciphertextHash: CiphertextHash,
    byteSize: nat)
}
