/** Signatures, whatever scheme makes them. */
module Signing {
  import opened Bytes

  type Signature = s: bytes | |s| == 64 witness Zeros(64)

  /** Signature checking under a key is any predicate on the key, the message and the signature. */
  type Verifier = (bytes, bytes, Signature) -> bool
}
