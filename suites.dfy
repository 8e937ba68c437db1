/** The cipher-suite descriptor and its queries: signature-scheme
    resolution, key-block sizing, version and signature-algorithm
    applicability, and the resumption rule. */
module Suites {
  import opened Sequences
  import opened Enums

  /** Bulk symmetric encryption scheme used by a cipher suite. */
  datatype BulkAlgorithm = AES_128_GCM | AES_256_GCM | CHACHA20_POLY1305

  /** Which TLS1.2 record-protection builder a descriptor refers to; the
      builders themselves (record-layer cryptography) are not modelled. */
  datatype Tls12RecordCipher = ChaCha20Poly1305Builder | Gcm128Builder | Gcm256Builder

  /** A cipher suite supported by the library. `sign` is absent for TLS1.3,
      where authentication is orthogonal to the suite; lengths are in bytes. */
  datatype SupportedCipherSuite = SupportedCipherSuite(
    suite: CipherSuite,
    kx: KeyExchangeAlgorithm,
    bulk: BulkAlgorithm,
    hash: HashAlgorithm,
    sign: Option<seq<SignatureScheme>>,
    encKeyLen: nat,
    fixedIvLen: nat,
    explicitNonceLen: nat,
    buildTls12Encrypter: Option<Tls12RecordCipher>,
    buildTls12Decrypter: Option<Tls12RecordCipher>)

  /** `PartialEq`: descriptors are equal when they name the same suite,
      whatever their other fields. */
  predicate SuiteEq(a: SupportedCipherSuite, b: SupportedCipherSuite) {
    a.suite == b.suite
  }

  /** Descriptor equality is an equivalence relation. */
  lemma SuiteEqIsEquivalence(a: SupportedCipherSuite, b: SupportedCipherSuite, c: SupportedCipherSuite)
    ensures SuiteEq(a, a)
    ensures SuiteEq(a, b) ==> SuiteEq(b, a)
    ensures SuiteEq(a, b) && SuiteEq(b, c) ==> SuiteEq(a, c)
  {
  }

  /** The encrypter and decrypter builders are both present or both absent:
      the convention every catalog entry follows. */
  predicate BuildersPaired(scs: SupportedCipherSuite) {
    scs.buildTls12Encrypter.Some? == scs.buildTls12Decrypter.Some?
  }

  /** The suite's own preference list restricted to the schemes the peer
      offered, in the suite's order; empty when the suite expresses no
      signature constraint. An empty result ends the handshake. */
  function ResolveSigSchemes(scs: SupportedCipherSuite, offered: seq<SignatureScheme>): seq<SignatureScheme>
  {
    match scs.sign
    case Some(ourPreference) => Filter(pref => pref in offered, ourPreference)
    case None => []
  }

  /** Without a preference list nothing is resolved, whatever the peer
      offers. Otherwise the result keeps the suite's order and every
      occurrence of an offered scheme, and drops the rest. */
  lemma ResolveSigSchemesSpec(scs: SupportedCipherSuite, offered: seq<SignatureScheme>)
    ensures scs.sign.None? ==> ResolveSigSchemes(scs, offered) == []
    ensures scs.sign.Some? ==> IsSubsequence(ResolveSigSchemes(scs, offered), scs.sign.value)
    ensures scs.sign.Some? ==> forall x ::
      multiset(ResolveSigSchemes(scs, offered))[x] == if x in offered then multiset(scs.sign.value)[x] else 0
  {
    if scs.sign.Some? {
      FilterSpec(pref => pref in offered, scs.sign.value);
    }
  }

  /** A scheme is resolved exactly when the suite lists it and the peer
      offered it. */
  lemma ResolvedSchemes(scs: SupportedCipherSuite, offered: seq<SignatureScheme>, x: SignatureScheme)
    ensures x in ResolveSigSchemes(scs, offered) <==> scs.sign.Some? && x in scs.sign.value && x in offered
  {
    var r := ResolveSigSchemes(scs, offered);
    ResolveSigSchemesSpec(scs, offered);
    assert x in r <==> multiset(r)[x] > 0;
  }

  /** Resolution comes back empty exactly when the suite has no preference
      list or none of its schemes was offered. */
  lemma ResolveSigSchemesEmpty(scs: SupportedCipherSuite, offered: seq<SignatureScheme>)
    ensures ResolveSigSchemes(scs, offered) == [] <==>
      (scs.sign.None? || forall i :: 0 <= i < |scs.sign.value| ==> scs.sign.value[i] !in offered)
  {
    if scs.sign.Some? {
      FilterEmpty(pref => pref in offered, scs.sign.value);
    }
  }

  /** Every scheme that resolution returns makes the suite usable for that
      scheme's signing algorithm. */
  lemma ResolvedSchemeIsUsable(scs: SupportedCipherSuite, offered: seq<SignatureScheme>, scheme: SignatureScheme)
    requires scheme in ResolveSigSchemes(scs, offered)
    ensures scheme in offered
    ensures UsableForSigalg(scs, Sign(scheme))
  {
    ResolvedSchemes(scs, offered, scheme);
    var i :| 0 <= i < |scs.sign.value| && scs.sign.value[i] == scheme;
  }

  /** The lengths of the pieces the key block is cut into, in order:
      client write key, server write key, client write IV, server write IV
      (section 6.3 of RFC 5246, which has no MAC keys for AEAD suites), then
      the explicit nonce offset, a non-standard extension of that block. */
  function KeyBlockLayout(scs: SupportedCipherSuite): seq<nat> {
    [scs.encKeyLen, scs.encKeyLen, scs.fixedIvLen, scs.fixedIvLen, scs.explicitNonceLen]
  }

  function Sum(s: seq<nat>): nat {
    if s == [] then 0 else s[0] + Sum(s[1..])
  }

  /** Number of key-derivation output bytes the suite consumes: exactly
      enough for every piece of the key block layout. */
  function KeyBlockLen(scs: SupportedCipherSuite): (n: nat)
    ensures n == Sum(KeyBlockLayout(scs))
  {
    var l := KeyBlockLayout(scs);
    assert l[1..][1..] == l[2..] && l[2..][1..] == l[3..] && l[3..][1..] == l[4..] && l[4..][1..] == [];
    assert Sum(l[4..]) == l[4];
    assert Sum(l[2..]) == l[2] + l[3] + l[4];
    (scs.encKeyLen + scs.fixedIvLen) * 2 + scs.explicitNonceLen
  }

  /** TLS1.3 suites are the ones without a TLS1.2 encrypter, TLS1.2 suites
      the ones with one; no suite is usable for any other version. */
  function UsableForVersion(scs: SupportedCipherSuite, version: ProtocolVersion): (b: bool)
    ensures b ==> version == TLSv1_2 || version == TLSv1_3
    ensures version == TLSv1_3 ==> (b <==> scs.buildTls12Encrypter.None?)
    ensures version == TLSv1_2 ==> (b <==> scs.buildTls12Encrypter.Some?)
  {
    match version
    case TLSv1_3 => scs.buildTls12Encrypter.None?
    case TLSv1_2 => scs.buildTls12Encrypter.Some?
    case _ => false
  }

  /** Every descriptor is usable for exactly one of TLS1.2 and TLS1.3. */
  lemma UsableForExactlyOneVersion(scs: SupportedCipherSuite)
    ensures UsableForVersion(scs, TLSv1_2) != UsableForVersion(scs, TLSv1_3)
  {
  }

  /** A suite without a preference list is usable with any signing
      algorithm; otherwise with exactly the algorithms its schemes use. */
  function UsableForSigalg(scs: SupportedCipherSuite, sigalg: SignatureAlgorithm): (b: bool)
    ensures scs.sign.None? ==> b
    ensures scs.sign.Some? ==>
      (b <==> exists i :: 0 <= i < |scs.sign.value| && Sign(scs.sign.value[i]) == sigalg)
  {
    match scs.sign
    case None => true
    case Some(schemes) => Any(scheme => Sign(scheme) == sigalg, schemes)
  }

  /** A session under `scs` may resume under `newSuite`: between TLS1.3
      suites when the KDF hashes agree (section 4.6.1 of RFC 8446), between
      TLS1.2 suites only for the same suite, and never across versions. */
  function CanResumeTo(scs: SupportedCipherSuite, newSuite: SupportedCipherSuite): (b: bool)
    ensures UsableForVersion(scs, TLSv1_3) && UsableForVersion(newSuite, TLSv1_3) ==>
      (b <==> scs.hash == newSuite.hash)
    ensures UsableForVersion(scs, TLSv1_2) && UsableForVersion(newSuite, TLSv1_2) ==>
      (b <==> scs.suite == newSuite.suite)
    ensures UsableForVersion(scs, TLSv1_2) != UsableForVersion(newSuite, TLSv1_2) ==> !b
  {
    if UsableForVersion(scs, TLSv1_3) && UsableForVersion(newSuite, TLSv1_3) then
      scs.hash == newSuite.hash
    else if UsableForVersion(scs, TLSv1_2) && UsableForVersion(newSuite, TLSv1_2) then
      scs.suite == newSuite.suite
    else
      false
  }

  /** Resumption compatibility is reflexive, symmetric and transitive here,
      so it partitions suites into classes (a TLS1.3 hash, or a single
      TLS1.2 suite). */
  lemma CanResumeToIsEquivalence(a: SupportedCipherSuite, b: SupportedCipherSuite, c: SupportedCipherSuite)
    ensures CanResumeTo(a, a)
    ensures CanResumeTo(a, b) ==> CanResumeTo(b, a)
    ensures CanResumeTo(a, b) && CanResumeTo(b, c) ==> CanResumeTo(a, c)
  {
  }

  /** Resuming under a different TLS1.2 suite is never allowed, however
      alike the two suites are apart from their identifier. */
  lemma CanResumeToTls12OnlySameSuite(a: SupportedCipherSuite, b: SupportedCipherSuite)
    requires UsableForVersion(a, TLSv1_2) && CanResumeTo(a, b)
    ensures UsableForVersion(b, TLSv1_2) && SuiteEq(a, b)
  {
  }
}
