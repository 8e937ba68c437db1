/** The static catalog: the two TLS1.2 signature-scheme preference lists,
    the nine supported suites, the full list in preference order and the
    default list, with the facts that hold across the whole table. */
module Catalog {
  import opened Sequences
  import opened Enums
  import opened Suites

  const Tls12EcdsaSchemes: seq<SignatureScheme> :=
    [ED25519_Scheme, ECDSA_NISTP521_SHA512, ECDSA_NISTP384_SHA384, ECDSA_NISTP256_SHA256]

  const Tls12RsaSchemes: seq<SignatureScheme> :=
    [RSA_PSS_SHA512, RSA_PSS_SHA384, RSA_PSS_SHA256,
     RSA_PKCS1_SHA512, RSA_PKCS1_SHA384, RSA_PKCS1_SHA256]

  const TlsEcdheEcdsaWithChaCha20Poly1305Sha256 := SupportedCipherSuite(
    TLS_ECDHE_ECDSA_WITH_CHACHA20_POLY1305_SHA256, ECDHE, CHACHA20_POLY1305, SHA256,
    Some(Tls12EcdsaSchemes), 32, 12, 0, Some(ChaCha20Poly1305Builder), Some(ChaCha20Poly1305Builder))

  const TlsEcdheRsaWithChaCha20Poly1305Sha256 := SupportedCipherSuite(
    TLS_ECDHE_RSA_WITH_CHACHA20_POLY1305_SHA256, ECDHE, CHACHA20_POLY1305, SHA256,
    Some(Tls12RsaSchemes), 32, 12, 0, Some(ChaCha20Poly1305Builder), Some(ChaCha20Poly1305Builder))

  const TlsEcdheRsaWithAes128GcmSha256 := SupportedCipherSuite(
    TLS_ECDHE_RSA_WITH_AES_128_GCM_SHA256, ECDHE, AES_128_GCM, SHA256,
    Some(Tls12RsaSchemes), 16, 4, 8, Some(Gcm128Builder), Some(Gcm128Builder))

  const TlsEcdheRsaWithAes256GcmSha384 := SupportedCipherSuite(
    TLS_ECDHE_RSA_WITH_AES_256_GCM_SHA384, ECDHE, AES_256_GCM, SHA384,
    Some(Tls12RsaSchemes), 32, 4, 8, Some(Gcm256Builder), Some(Gcm256Builder))

  const TlsEcdheEcdsaWithAes128GcmSha256 := SupportedCipherSuite(
    TLS_ECDHE_ECDSA_WITH_AES_128_GCM_SHA256, ECDHE, AES_128_GCM, SHA256,
    Some(Tls12EcdsaSchemes), 16, 4, 8, Some(Gcm128Builder), Some(Gcm128Builder))

  const TlsEcdheEcdsaWithAes256GcmSha384 := SupportedCipherSuite(
    TLS_ECDHE_ECDSA_WITH_AES_256_GCM_SHA384, ECDHE, AES_256_GCM, SHA384,
    Some(Tls12EcdsaSchemes), 32, 4, 8, Some(Gcm256Builder), Some(Gcm256Builder))

  const Tls13ChaCha20Poly1305Sha256 := SupportedCipherSuite(
    TLS13_CHACHA20_POLY1305_SHA256, BulkOnly, CHACHA20_POLY1305, SHA256,
    None, 32, 12, 0, None, None)

  const Tls13Aes256GcmSha384 := SupportedCipherSuite(
    TLS13_AES_256_GCM_SHA384, BulkOnly, AES_256_GCM, SHA384,
    None, 32, 12, 0, None, None)

  const Tls13Aes128GcmSha256 := SupportedCipherSuite(
    TLS13_AES_128_GCM_SHA256, BulkOnly, AES_128_GCM, SHA256,
    None, 16, 12, 0, None, None)

  /** Every supported suite, most preferred first: the TLS1.3 suites, then
      the TLS1.2 ECDSA suites, then the TLS1.2 RSA suites. */
  const AllCipherSuites: seq<SupportedCipherSuite> := [
    Tls13Aes256GcmSha384,
    Tls13Aes128GcmSha256,
    Tls13ChaCha20Poly1305Sha256,
    TlsEcdheEcdsaWithAes256GcmSha384,
    TlsEcdheEcdsaWithAes128GcmSha256,
    TlsEcdheEcdsaWithChaCha20Poly1305Sha256,
    TlsEcdheRsaWithAes256GcmSha384,
    TlsEcdheRsaWithAes128GcmSha256,
    TlsEcdheRsaWithChaCha20Poly1305Sha256
  ]

  /** The suites enabled by default: currently the whole catalog. */
  const DefaultCipherSuites: seq<SupportedCipherSuite> := AllCipherSuites

  /** No two catalog entries share a suite identifier. */
  lemma CatalogIdsDistinct()
    ensures |AllCipherSuites| == 9
    ensures forall i, j :: 0 <= i < j < |AllCipherSuites| ==>
      AllCipherSuites[i].suite != AllCipherSuites[j].suite
  {
  }

  /** On the catalog, descriptor equality is identity: every entry equals
      itself and no entry equals another. */
  lemma CatalogEqualityIsIdentity()
    ensures forall i, j :: 0 <= i < |AllCipherSuites| && 0 <= j < |AllCipherSuites| ==>
      (SuiteEq(AllCipherSuites[i], AllCipherSuites[j]) <==> i == j)
  {
    CatalogIdsDistinct();
  }

  /** Each entry carries both TLS1.2 builders or neither. The first three
      entries are usable for TLS1.3 only, the rest for TLS1.2 only, and none
      for any other version. Exactly the TLS1.3 entries have no
      signature-scheme list, and the TLS1.2 entries use ECDHE. */
  lemma CatalogVersions()
    ensures forall i :: 0 <= i < |AllCipherSuites| ==> BuildersPaired(AllCipherSuites[i])
    ensures forall i :: 0 <= i < |AllCipherSuites| ==>
      (UsableForVersion(AllCipherSuites[i], TLSv1_3) <==> i < 3)
    ensures forall i :: 0 <= i < |AllCipherSuites| ==>
      (UsableForVersion(AllCipherSuites[i], TLSv1_2) <==> 3 <= i)
    ensures forall i, v :: 0 <= i < |AllCipherSuites| && v != TLSv1_2 && v != TLSv1_3 ==>
      !UsableForVersion(AllCipherSuites[i], v)
    ensures forall i :: 0 <= i < |AllCipherSuites| ==>
      (AllCipherSuites[i].sign.None? <==> UsableForVersion(AllCipherSuites[i], TLSv1_3))
    ensures forall i :: 0 <= i < |AllCipherSuites| ==>
      (AllCipherSuites[i].kx == BulkOnly <==> UsableForVersion(AllCipherSuites[i], TLSv1_3)) &&
      (AllCipherSuites[i].kx == ECDHE <==> UsableForVersion(AllCipherSuites[i], TLSv1_2))
  {
  }

  /** TLS1.3 entries place no constraint on the signing algorithm. */
  lemma CatalogTls13UsableForEverySigalg(sigalg: SignatureAlgorithm)
    ensures forall i :: 0 <= i < 3 ==> UsableForSigalg(AllCipherSuites[i], sigalg)
  {
  }

  /** The key blocks the catalog entries need: 48 bytes for TLS1.2
      AES-128-GCM, 80 for TLS1.2 AES-256-GCM, 88 for TLS1.2 ChaCha20 and for
      TLS1.3 ChaCha20 and AES-256-GCM, 56 for TLS1.3 AES-128-GCM. */
  lemma CatalogKeyBlockLengths()
    ensures KeyBlockLen(TlsEcdheRsaWithAes128GcmSha256) == 48
    ensures KeyBlockLen(TlsEcdheEcdsaWithAes128GcmSha256) == 48
    ensures KeyBlockLen(TlsEcdheRsaWithAes256GcmSha384) == 80
    ensures KeyBlockLen(TlsEcdheEcdsaWithAes256GcmSha384) == 80
    ensures KeyBlockLen(TlsEcdheRsaWithChaCha20Poly1305Sha256) == 88
    ensures KeyBlockLen(TlsEcdheEcdsaWithChaCha20Poly1305Sha256) == 88
    ensures KeyBlockLen(Tls13ChaCha20Poly1305Sha256) == 88
    ensures KeyBlockLen(Tls13Aes256GcmSha384) == 88
    ensures KeyBlockLen(Tls13Aes128GcmSha256) == 56
  {
  }

  /** Every catalog entry may resume to itself; the resumption cases the
      library's tests fix. */
  lemma CatalogResumption()
    ensures forall i :: 0 <= i < |AllCipherSuites| ==> CanResumeTo(AllCipherSuites[i], AllCipherSuites[i])
    ensures CanResumeTo(Tls13ChaCha20Poly1305Sha256, Tls13Aes128GcmSha256)
    ensures !CanResumeTo(Tls13ChaCha20Poly1305Sha256, Tls13Aes256GcmSha384)
    ensures !CanResumeTo(Tls13ChaCha20Poly1305Sha256, TlsEcdheEcdsaWithChaCha20Poly1305Sha256)
    ensures !CanResumeTo(TlsEcdheRsaWithAes128GcmSha256, TlsEcdheEcdsaWithChaCha20Poly1305Sha256)
    ensures CanResumeTo(TlsEcdheEcdsaWithChaCha20Poly1305Sha256, TlsEcdheEcdsaWithChaCha20Poly1305Sha256)
  {
  }

  /** Two catalog entries may resume to each other exactly when they are
      the same TLS1.2 entry or TLS1.3 entries with the same hash. */
  lemma CatalogResumptionClasses()
    ensures forall i, j :: 0 <= i < |AllCipherSuites| && 0 <= j < |AllCipherSuites| ==>
      (CanResumeTo(AllCipherSuites[i], AllCipherSuites[j]) <==>
        i == j || (i < 3 && j < 3 && AllCipherSuites[i].hash == AllCipherSuites[j].hash))
  {
    CatalogVersions();
    CatalogIdsDistinct();
  }
}
