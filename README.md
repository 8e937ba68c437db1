# rustls cipher-suite registry and negotiation, in Dafny

This project models the cipher-suite layer of rustls (`rustls/src/suites.rs`):
- the `SupportedCipherSuite` descriptor and its queries: signature-scheme resolution, key-block length, version and signature-algorithm applicability, and the resumption rule;
- the nine built-in suites with `ALL_CIPHERSUITES` and `DEFAULT_CIPHERSUITES`;
- client-preference and server-preference selection of one suite from the peer's offer;
- the two order-preserving filters `reduce_given_version` and `reduce_given_sigalg`;
- the query `compatible_sigscheme_for_suites`.

The source is pure: expressions and iterator combinators over immutable statics. So the model is functions over `seq`, and the properties are proved as `ensures` clauses and lemmas.

Files, one module each:
- `sequences.dfy` (`Sequences`): `Option`, and the combinators `find`, `any` and `filter().collect()` as `Find`, `Any` and `Filter`, with their facts. A filter result is the one subsequence that keeps every occurrence of a passing element and drops the rest (`FilterUnique`).
- `enums.dfy` (`Enums`): the protocol enumerations the file imports, with a small table for `SignatureScheme::sign()`.
- `suites.dfy` (`Suites`): the descriptor, `eq`, and the descriptor queries.
- `catalog.dfy` (`Catalog`): the static suites and lists, and facts that hold across the whole table.
- `negotiation.dfy` (`Negotiation`): the two `choose_*` functions, the filters, the compatibility query, and the outcomes the in-file tests fix.

Modelling choices:
- The TLS1.2 encrypter and decrypter function pointers become `Option<Tls12RecordCipher>`. That records whether each builder is present and which family it is (ChaCha20-Poly1305, AES-128-GCM or AES-256-GCM).
- Rust returns references to statics; the model returns the descriptor values. No two catalog entries share an identifier (`CatalogIdsDistinct`), so a value names one static.
- Suite identifiers are compared with `==`, as the source compares `CipherSuite` values. Descriptor equality (`PartialEq`) is `SuiteEq`, which compares identifiers only.

## Model

| member | source | states |
|---|---|---|
| `Sequences.Find` | rustls/src/suites.rs:368-370 | `find` returns nothing iff no element passes; otherwise it returns an element that passes, and none before it passes |
| `Sequences.Any` | rustls/src/suites.rs:408-410 | `any` is true iff some element passes |
| `Sequences.Filter` | rustls/src/suites.rs:384-387 | `filter().collect()`: the elements that pass, in input order; what it returns is stated by the two lemmas below (definition, no contract of its own) |
| `Sequences.FilterSpec` | rustls/src/suites.rs:384-387 | `filter().collect()` gives a subsequence of its input that keeps every occurrence of a passing element and no failing one |
| `Sequences.FilterUnique` | rustls/src/suites.rs:384-387 | any subsequence with those multiplicities is the filter result, so the facts above determine it |
| `Sequences.FilterIdempotent` | rustls/src/suites.rs:396-399 | filtering an already filtered list by the same predicate changes nothing |
| `Enums.Sign` | rustls/src/suites.rs:131-140 | stand-in table for `SignatureScheme::sign()`: RSA for the PKCS#1 and PSS schemes, ECDSA for the ECDSA schemes, Ed25519 and Ed448 for the Edwards schemes (definition, no contract of its own) |
| `Suites.SuiteEq` | rustls/src/suites.rs:68-72 | `PartialEq::eq`: two descriptors are equal iff their suite ids are equal, whatever their other fields (definition, no contract of its own) |
| `Suites.SuiteEqIsEquivalence` | rustls/src/suites.rs:68-72 | equality by suite id is reflexive, symmetric and transitive |
| `Suites.ResolveSigSchemes` | rustls/src/suites.rs:104-114 | `resolve_sig_schemes`: the suite's own list filtered by membership in the offer, or empty without a list; what it returns is stated by the lemmas below (definition, no contract of its own) |
| `Suites.ResolveSigSchemesSpec` | rustls/src/suites.rs:101-114 | with no preference list the result is empty for every offer; otherwise it is the suite's own list, in the suite's order, keeping exactly the offered schemes |
| `Suites.ResolvedSchemes` | rustls/src/suites.rs:104-110 | a scheme is resolved iff the suite lists it and the peer offered it |
| `Suites.ResolveSigSchemesEmpty` | rustls/src/suites.rs:101-114 | the result is empty (the handshake then stops) iff the suite has no list or none of its schemes was offered |
| `Suites.ResolvedSchemeIsUsable` | rustls/src/suites.rs:104-140 | every resolved scheme was offered and makes the suite usable for that scheme's signing algorithm |
| `Suites.KeyBlockLen` | rustls/src/suites.rs:116-120 | the key block length is the sum of the pieces: two write keys, two fixed IVs and the explicit nonce extension |
| `Suites.UsableForVersion` | rustls/src/suites.rs:122-129 | usable for TLS1.3 iff there is no TLS1.2 encrypter, for TLS1.2 iff there is one, never for another version |
| `Suites.UsableForExactlyOneVersion` | rustls/src/suites.rs:123-129 | every descriptor is usable for exactly one of TLS1.2 and TLS1.3 |
| `Suites.UsableForSigalg` | rustls/src/suites.rs:131-140 | with no preference list the suite is usable for every algorithm; otherwise iff some listed scheme signs with that algorithm |
| `Suites.CanResumeTo` | rustls/src/suites.rs:142-160 | between two TLS1.3 suites it is hash equality; between two TLS1.2 suites it is suite-id equality; across versions it is false |
| `Suites.CanResumeToIsEquivalence` | rustls/src/suites.rs:142-160 | resumption compatibility is reflexive, symmetric and transitive |
| `Suites.CanResumeToTls12OnlySameSuite` | rustls/src/suites.rs:150-156 | a TLS1.2 session resumes only to a TLS1.2 suite with the same identifier |
| `Catalog.Tls12EcdsaSchemes` | rustls/src/suites.rs:163-168 | `TLS12_ECDSA_SCHEMES`: Ed25519, then ECDSA P-521, P-384, P-256, in that preference order (constant) |
| `Catalog.Tls12RsaSchemes` | rustls/src/suites.rs:170-177 | `TLS12_RSA_SCHEMES`: RSA-PSS SHA-512, SHA-384, SHA-256, then RSA-PKCS1 SHA-512, SHA-384, SHA-256 (constant) |
| `Catalog.TlsEcdheEcdsaWithChaCha20Poly1305Sha256` | rustls/src/suites.rs:179-194 | the static of that name: ECDHE, ChaCha20-Poly1305, SHA-256, the ECDSA schemes, key 32, IV 12, nonce 0, ChaCha20 builders (constant) |
| `Catalog.TlsEcdheRsaWithChaCha20Poly1305Sha256` | rustls/src/suites.rs:196-211 | the static of that name: ECDHE, ChaCha20-Poly1305, SHA-256, the RSA schemes, key 32, IV 12, nonce 0, ChaCha20 builders (constant) |
| `Catalog.TlsEcdheRsaWithAes128GcmSha256` | rustls/src/suites.rs:213-227 | the static of that name: ECDHE, AES-128-GCM, SHA-256, the RSA schemes, key 16, IV 4, nonce 8, GCM builders (constant) |
| `Catalog.TlsEcdheRsaWithAes256GcmSha384` | rustls/src/suites.rs:229-243 | the static of that name: ECDHE, AES-256-GCM, SHA-384, the RSA schemes, key 32, IV 4, nonce 8, GCM builders (constant) |
| `Catalog.TlsEcdheEcdsaWithAes128GcmSha256` | rustls/src/suites.rs:245-259 | the static of that name: ECDHE, AES-128-GCM, SHA-256, the ECDSA schemes, key 16, IV 4, nonce 8, GCM builders (constant) |
| `Catalog.TlsEcdheEcdsaWithAes256GcmSha384` | rustls/src/suites.rs:261-275 | the static of that name: ECDHE, AES-256-GCM, SHA-384, the ECDSA schemes, key 32, IV 4, nonce 8, GCM builders (constant) |
| `Catalog.Tls13ChaCha20Poly1305Sha256` | rustls/src/suites.rs:277-291 | the static of that name: BulkOnly, ChaCha20-Poly1305, SHA-256, no scheme list, key 32, IV 12, nonce 0, no TLS1.2 builders (constant) |
| `Catalog.Tls13Aes256GcmSha384` | rustls/src/suites.rs:293-307 | the static of that name: BulkOnly, AES-256-GCM, SHA-384, no scheme list, key 32, IV 12, nonce 0, no TLS1.2 builders (constant) |
| `Catalog.Tls13Aes128GcmSha256` | rustls/src/suites.rs:309-323 | the static of that name: BulkOnly, AES-128-GCM, SHA-256, no scheme list, key 16, IV 12, nonce 0, no TLS1.2 builders (constant) |
| `Catalog.AllCipherSuites` | rustls/src/suites.rs:326-339 | `ALL_CIPHERSUITES`: the nine statics, TLS1.3 first, then the TLS1.2 ECDSA suites, then the TLS1.2 RSA suites (constant) |
| `Catalog.DefaultCipherSuites` | rustls/src/suites.rs:341-345 | `DEFAULT_CIPHERSUITES`: the same list as `ALL_CIPHERSUITES` (constant) |
| `Catalog.CatalogIdsDistinct` | rustls/src/suites.rs:326-339 | the catalog has nine entries with pairwise distinct suite ids |
| `Catalog.CatalogEqualityIsIdentity` | rustls/src/suites.rs:68-72 | on catalog entries, descriptor equality holds iff the two are the same entry |
| `Catalog.CatalogVersions` | rustls/src/suites.rs:472-494 | every entry has both TLS1.2 builders or neither; the first three are TLS1.3 only, the rest TLS1.2 only; no entry is usable for another version; exactly the TLS1.3 entries have no scheme list; the key exchange is BulkOnly for TLS1.3 and ECDHE for TLS1.2 |
| `Catalog.CatalogTls13UsableForEverySigalg` | rustls/src/suites.rs:131-135 | the TLS1.3 entries are usable for every signing algorithm |
| `Catalog.CatalogKeyBlockLengths` | rustls/src/suites.rs:179-323 | key block lengths: 48 for TLS1.2 AES-128-GCM, 80 for TLS1.2 AES-256-GCM, 88 for TLS1.2 ChaCha20, 88 for TLS1.3 ChaCha20 and AES-256-GCM, 56 for TLS1.3 AES-128-GCM |
| `Catalog.CatalogResumption` | rustls/src/suites.rs:496-512 | every entry resumes to itself, and the test's specific true and false cases hold |
| `Catalog.CatalogResumptionClasses` | rustls/src/suites.rs:326-339 | two catalog entries are resumption-compatible iff they are the same entry, or both are TLS1.3 with the same hash |
| `Negotiation.ChooseCipherSuitePreferringClient` | rustls/src/suites.rs:347-362 | nothing is chosen iff no server entry's id is in the client list; a chosen suite is a server entry whose id the client offered |
| `Negotiation.ClientPreferenceChoice` | rustls/src/suites.rs:352-359 | the choice is the first server entry carrying the earliest client id that the server supports |
| `Negotiation.ChooseCipherSuitePreferringServer` | rustls/src/suites.rs:364-376 | nothing is chosen iff the lists share no id; otherwise the choice is the earliest server entry whose id the client offered |
| `Negotiation.ServerPreferenceChoice` | rustls/src/suites.rs:368-373 | the earliest offered server entry is the one chosen |
| `Negotiation.PoliciesAgreeOnSingleCommonSuite` | rustls/src/suites.rs:347-376 | when the two sides share exactly one server entry, both policies choose it |
| `Negotiation.ReduceGivenSigalg` | rustls/src/suites.rs:378-388 | the result is a subsequence of the input; it holds every occurrence of each suite usable for the algorithm and nothing else |
| `Negotiation.ReduceGivenVersion` | rustls/src/suites.rs:390-400 | the result is a subsequence of the input; it holds every occurrence of each suite usable for the version and nothing else |
| `Negotiation.ReduceGivenSigalgIsExact` | rustls/src/suites.rs:380-388 | only one list meets the facts stated for ReduceGivenSigalg, and it is the result |
| `Negotiation.ReduceGivenVersionIsExact` | rustls/src/suites.rs:392-400 | only one list meets the facts stated for ReduceGivenVersion, and it is the result |
| `Negotiation.ReduceGivenSigalgIdempotent` | rustls/src/suites.rs:380-388 | narrowing by signing algorithm twice is narrowing once |
| `Negotiation.ReduceGivenVersionIdempotent` | rustls/src/suites.rs:392-400 | narrowing by version twice is narrowing once |
| `Negotiation.ReductionsCommute` | rustls/src/suites.rs:378-400 | narrowing by version then by algorithm gives the same list as the other order |
| `Negotiation.CompatibleSigschemeForSuites` | rustls/src/suites.rs:402-411 | true iff some suite in the list is usable for the scheme's signing algorithm |
| `Negotiation.CompatibleIffReductionNonEmpty` | rustls/src/suites.rs:402-411 | compatible iff narrowing the list by the scheme's algorithm leaves something |
| `Negotiation.ClientPreferenceExample` | rustls/src/suites.rs:418-431 | client [RSA AES-128, RSA AES-256] against server [RSA AES-256, RSA AES-128] chooses RSA AES-128 |
| `Negotiation.ServerPreferenceExample` | rustls/src/suites.rs:433-446 | the same lists under server preference choose RSA AES-256 |
| `Negotiation.NullSuiteIsNeverChosen` | rustls/src/suites.rs:448-464 | offering only the null suite against the full catalog chooses nothing under either policy |
| `Negotiation.CatalogForTls13` | rustls/src/suites.rs:326-331 | narrowing the catalog to TLS1.3 keeps exactly its first three entries |
| `Negotiation.CatalogForTls12` | rustls/src/suites.rs:332-339 | narrowing the catalog to TLS1.2 keeps exactly its last six entries, in order |
| `Negotiation.CatalogForOtherVersions` | rustls/src/suites.rs:123-128 | narrowing the catalog to any other version leaves nothing |
| `Negotiation.CatalogForEcdsaKeys` | rustls/src/suites.rs:163-168 | for an ECDSA or Ed25519 key, the catalog narrows to the TLS1.3 suites followed by the TLS1.2 ECDSA suites |
| `Negotiation.EcdsaEntriesRejectRsa` | rustls/src/suites.rs:131-140 | the three TLS1.2 ECDSA entries are not usable with an RSA key |
| `Negotiation.RsaEntriesAcceptRsa` | rustls/src/suites.rs:131-140 | the three TLS1.2 RSA entries are usable with an RSA key |
| `Negotiation.CatalogForRsaKeys` | rustls/src/suites.rs:170-177 | for an RSA key, the catalog narrows to the TLS1.3 suites followed by the TLS1.2 RSA suites |
| `Negotiation.ResolveSigSchemesExample` | rustls/src/suites.rs:101-114 | a TLS1.2 RSA suite given the offer [PKCS1-SHA256, PSS-SHA512] resolves to [PSS-SHA512, PKCS1-SHA256], in the suite's order; a TLS1.3 suite resolves to nothing |

## Left out

- The `ring` handles `hkdf_algorithm`, `aead_algorithm`, `get_hash` and `hmac_algorithm` are left out: they are foreign cryptographic objects. The KDF hash is kept as the `hash` field.
- The `cipher::build_tls12_*` builders are modelled only by their presence and family tag. The record-layer cryptography behind them is not modelled.
- The `fmt::Debug` implementation and `test_scs_is_debug` are left out: they only format output.
- `SignatureScheme::sign()` lives in `msgs/handshake.rs`, which is not part of this model. `Enums.Sign` is a small table standing in for it. The general lemmas hold for any mapping. Only `CatalogForEcdsaKeys`, `CatalogForRsaKeys`, the two helper facts `EcdsaEntriesRejectRsa` and `RsaEntriesAcceptRsa`, and the concrete scheme examples depend on the table.
- The full `CipherSuite`, `SignatureScheme` and `ProtocolVersion` enums and their wire codes are not modelled. Each keeps the variants this file uses, plus an `Unknown` case carrying a 16-bit code; `HashAlgorithm` and `SignatureAlgorithm` carry an 8-bit code, as their registries are one byte wide. `KeyExchangeAlgorithm` (from `msgs/handshake.rs`, not part of this model) is not a wire registry and keeps only its variants.
- KeyBlockLen: the lengths are unbounded `nat`, so the `usize` overflow of the source's formula is not modelled. Every catalog entry needs at most 88 bytes.
- Rust's reference identity (`&'static SupportedCipherSuite`) is modelled by value, so two distinct statics with identical fields could not be told apart. The catalog has no such pair.
- `rustls/examples/internal/trytls_shim.rs` is not part of this model: it is argument parsing, certificate file reading, TCP I/O and the handshake driver loop.
