/** Archive encryption (gzip and age): not interpreted, except that a matching identity undoes encryption. */
module Vault {
  import opened Basics

  type Identity = string
  type Recipient = string
  type Keyring = map<string, Identity>

  datatype Cipher = Cipher(encrypt: (Recipient, Bytes) -> Bytes, decrypt: (Identity, Bytes) -> Option<Bytes>)

  const TARGET_CHUNK: nat := 4_194_304
  const MAX_LINE: nat := 67_108_864
  const MAX_PLAIN: nat := MAX_LINE + TARGET_CHUNK
  const MAX_REQUEST_BODY: nat := 69_206_016

  /** `archive.Decrypt`: fails on foreign ciphertext and on plaintext above `max` bytes. */
  function Decrypt(c: Cipher, ciphertext: Bytes, identity: Identity, max: nat): Option<Bytes> {
    match c.decrypt(identity, ciphertext)
    case None => None
    case Some(plain) => if |plain| > max then None else Some(plain)
  }

  /** What the holder of `ring` reads from a stored ciphertext. */
  function Open(c: Cipher, ring: Keyring, keyId: string, ciphertext: Bytes): Option<Bytes> {
    if keyId in ring then Decrypt(c, ciphertext, ring[keyId], MAX_PLAIN) else None
  }

  /** The recipient and the identity are the two halves of one age key. */
  ghost predicate KeyPair(c: Cipher, recipient: Recipient, identity: Identity) {
    forall plain: Bytes :: c.decrypt(identity, c.encrypt(recipient, plain)) == Some(plain)
  }
}
