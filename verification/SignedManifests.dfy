/** A manifest as it is distributed: its canonical bytes with the signature behind them. */
module SignedManifests {
  import opened Bytes
  import opened DiskLayout
  import opened Manifests
  import opened Signing
  import ImageCodec

  datatype SignedManifest = SignedManifest(manifest: Manifest, signature: Signature)

  datatype Received = Received(signed: SignedManifest) | TooShort | Malformed(error: ImageCodec.Error)

  datatype Verdict = Accepted | BadSignature | WrongChunkCount

  function Encode(s: SignedManifest): bytes {
    ImageCodec.Encode(s.manifest) + s.signature
  }

  function Decode(b: bytes): Received {
    if |b| < 64 then TooShort
    else match ImageCodec.Decode(b[..|b| - 64])
      case Rejected(e) => Malformed(e)
      case Decoded(m) => Received(SignedManifest(m, b[|b| - 64..]))
  }

  /** The signature is checked over the manifest encoded again, then the number of chunks is compared with the sizes. */
  function Verify(valid: Verifier, key: bytes, s: SignedManifest): (v: Verdict)
    requires s.manifest.chunkSize > 0
  {
    if !valid(key, ImageCodec.Encode(s.manifest), s.signature) then BadSignature
    else if |s.manifest.chunks| != DivCeil(s.manifest.totalSize, s.manifest.chunkSize) then WrongChunkCount
    else Accepted
  }

  /** What is received and encoded again is what was received. */
  lemma EncodeDecode(b: bytes)
    requires Decode(b).Received?
    ensures Encode(Decode(b).signed) == b && ImageCodec.InLimits(Decode(b).signed.manifest)
    ensures ImageCodec.Encode(Decode(b).signed.manifest) == b[..|b| - 64]
  {
    hide ImageCodec.Decode, ImageCodec.Encode;
    ImageCodec.EncodeDecode(b[..|b| - 64]);
  }

  lemma DecodeEncode(s: SignedManifest)
    ensures Decode(Encode(s)) == Received(s) <==> ImageCodec.InLimits(s.manifest)
  {
    hide ImageCodec.Decode, ImageCodec.Encode;
    var b := Encode(s);
    assert b[..|b| - 64] == ImageCodec.Encode(s.manifest) && b[|b| - 64..] == s.signature;
    ImageCodec.RoundTripIff(s.manifest);
  }

  /**
   Accepting what came over the wire means that exactly the received body was signed by the trusted key, although the
   check itself looks at an encoding made afresh; and the accepted manifest is consistent.
   */
  lemma AcceptedWasSigned(valid: Verifier, key: bytes, b: bytes)
    requires Decode(b).Received?
    ensures Decode(b).signed.manifest.chunkSize > 0
    ensures Verify(valid, key, Decode(b).signed) == Accepted
       <==> valid(key, b[..|b| - 64], b[|b| - 64..]) && Consistent(Decode(b).signed.manifest)
  {
    hide ImageCodec.Decode, ImageCodec.Encode;
    EncodeDecode(b);
  }
}
