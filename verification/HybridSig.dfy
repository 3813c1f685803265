/** The dual signature of gateway/src/crypto/hybrid_sig.rs: Ed25519 and
    ML-DSA-65 over the same message. */
module HybridSig {
  import opened Prelude
  import Base64

  /** The two signature schemes, as library functions. A signature is parsed
      from bytes before it is verified. */
  datatype Schemes = Schemes(
    edSign: (Bytes, string) -> Bytes, edParses: Bytes -> bool, edVerifies: (Bytes, string, Bytes) -> bool,
    mlSign: (Bytes, string) -> Bytes, mlParses: Bytes -> bool, mlVerifies: (Bytes, string, Bytes) -> bool)

  datatype AuditKeys = AuditKeys(edSecret: Bytes, edPublic: Bytes, mlSecret: Bytes, mlPublic: Bytes)

  /** Both fields are standard base64; an empty second one means there is no
      ML-DSA-65 signature. */
  datatype DualSignature = DualSignature(ed: string, ml: string)

  const ED_SIG_LEN := 64
  const ML_SEED_LEN := 32
  const ML_PUBLIC_LEN := 1952
  const ML_SIG_LEN := 3309

  function Sign(s: Schemes, keys: AuditKeys, message: string): DualSignature {
    DualSignature(
      Base64.EncodePadded(Base64.Standard, s.edSign(keys.edSecret, message)),
      if |keys.mlSecret| != ML_SEED_LEN then ""
      else Base64.EncodePadded(Base64.Standard, s.mlSign(keys.mlSecret, message)))
  }

  predicate Verify(s: Schemes, keys: AuditKeys, message: string, sig: DualSignature) {
    var ed := Base64.DecodePadded(Base64.Standard, sig.ed);
    && ed.Some? && |ed.value| == ED_SIG_LEN && s.edParses(ed.value)
    && s.edVerifies(keys.edPublic, message, ed.value)
    && (sig.ml == "" || VerifyMlDsa(s, keys, message, sig.ml))
  }

  predicate VerifyMlDsa(s: Schemes, keys: AuditKeys, message: string, encoded: string) {
    var ml := Base64.DecodePadded(Base64.Standard, encoded);
    && |keys.mlPublic| == ML_PUBLIC_LEN
    && ml.Some? && |ml.value| == ML_SIG_LEN && s.mlParses(ml.value)
    && s.mlVerifies(keys.mlPublic, message, ml.value)
  }

  /** The schemes' signatures have their fixed lengths and parse. */
  ghost predicate WellBehaved(s: Schemes) {
    && (forall k, m :: |s.edSign(k, m)| == ED_SIG_LEN && s.edParses(s.edSign(k, m)))
    && (forall k, m :: |s.mlSign(k, m)| == ML_SIG_LEN && s.mlParses(s.mlSign(k, m)))
  }

  /** What verification of a produced signature comes down to: both primitive
      verifications, or Ed25519 alone for a signer without an ML-DSA seed. */
  lemma VerifySigned(s: Schemes, signer: AuditKeys, m: string, verifier: AuditKeys, m': string)
    requires WellBehaved(s)
    ensures Verify(s, verifier, m', Sign(s, signer, m)) <==>
            && s.edVerifies(verifier.edPublic, m', s.edSign(signer.edSecret, m))
            && (|signer.mlSecret| == ML_SEED_LEN ==>
                  && |verifier.mlPublic| == ML_PUBLIC_LEN
                  && s.mlVerifies(verifier.mlPublic, m', s.mlSign(signer.mlSecret, m)))
  {
    hide Base64.EncodePadded, Base64.DecodePadded;
    var ed, ml := s.edSign(signer.edSecret, m), s.mlSign(signer.mlSecret, m);
    Base64.DecodePaddedIff(Base64.Standard, Base64.EncodePadded(Base64.Standard, ed), ed);
    Base64.DecodePaddedIff(Base64.Standard, Base64.EncodePadded(Base64.Standard, ml), ml);
    if Base64.EncodePadded(Base64.Standard, ml) == "" {
      Base64.DecodePaddedIff(Base64.Standard, "", []);
      assert Base64.EncodePadded(Base64.Standard, []) == "" by { EmptyEncoding(); }
    }
  }

  lemma EmptyEncoding()
    ensures Base64.EncodePadded(Base64.Standard, []) == ""
  {
  }
}
