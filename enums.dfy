/** The protocol enumerations the cipher-suite registry is built from:
    suite identifiers, protocol versions, hash, signature and key-exchange
    algorithms, and the signature schemes of section 4.2.3 of RFC 8446.
    Each wire registry keeps an `Unknown` case for a code the
    implementation does not name, as wide as the registry's code: two bytes
    for suites, versions and schemes, one byte for the hash and signature
    algorithms of section 7.4.1.4.1 of RFC 5246. The key-exchange algorithm
    is not sent on the wire and has no such case. */
module Enums {

  newtype u8 = x: int | 0 <= x < 0x100

  newtype u16 = x: int | 0 <= x < 0x1_0000

  /** Cipher-suite identifiers: the nine suites the catalog supports and
      the null suite that the negotiation tests offer. */
  datatype CipherSuite =
    | TLS_NULL_WITH_NULL_NULL
    | TLS13_AES_128_GCM_SHA256
    | TLS13_AES_256_GCM_SHA384
    | TLS13_CHACHA20_POLY1305_SHA256
    | TLS_ECDHE_ECDSA_WITH_AES_128_GCM_SHA256
    | TLS_ECDHE_ECDSA_WITH_AES_256_GCM_SHA384
    | TLS_ECDHE_ECDSA_WITH_CHACHA20_POLY1305_SHA256
    | TLS_ECDHE_RSA_WITH_AES_128_GCM_SHA256
    | TLS_ECDHE_RSA_WITH_AES_256_GCM_SHA384
    | TLS_ECDHE_RSA_WITH_CHACHA20_POLY1305_SHA256
    | UnknownSuite(code: u16)

  datatype ProtocolVersion =
    | SSLv2 | SSLv3 | TLSv1_0 | TLSv1_1 | TLSv1_2 | TLSv1_3
    | UnknownVersion(code: u16)

  datatype HashAlgorithm =
    | NoHash | MD5 | SHA1 | SHA224 | SHA256 | SHA384 | SHA512
    | UnknownHash(code: u8)

  datatype SignatureAlgorithm =
    | Anonymous | RSA | DSA | ECDSA | ED25519 | ED448
    | UnknownSignature(code: u8)

  datatype SignatureScheme =
    | RSA_PKCS1_SHA1
    | ECDSA_SHA1_Legacy
    | RSA_PKCS1_SHA256
    | ECDSA_NISTP256_SHA256
    | RSA_PKCS1_SHA384
    | ECDSA_NISTP384_SHA384
    | RSA_PKCS1_SHA512
    | ECDSA_NISTP521_SHA512
    | RSA_PSS_SHA256
    | RSA_PSS_SHA384
    | RSA_PSS_SHA512
    | ED25519_Scheme
    | ED448_Scheme
    | UnknownScheme(code: u16)

  datatype KeyExchangeAlgorithm =
    | BulkOnly | DH | DHE | RSA_KX | DH_anon | ECDH | ECDHE

  /** The signing algorithm a signature scheme uses: RSA for the PKCS#1
      and PSS schemes, ECDSA for the ECDSA schemes, EdDSA for the Edwards
      schemes, and no known algorithm for an unknown code. */
  function Sign(scheme: SignatureScheme): SignatureAlgorithm
  {
    match scheme
    case RSA_PKCS1_SHA1 | RSA_PKCS1_SHA256 | RSA_PKCS1_SHA384 | RSA_PKCS1_SHA512
      | RSA_PSS_SHA256 | RSA_PSS_SHA384 | RSA_PSS_SHA512 => RSA
    case ECDSA_SHA1_Legacy | ECDSA_NISTP256_SHA256 | ECDSA_NISTP384_SHA384
      | ECDSA_NISTP521_SHA512 => ECDSA
    case ED25519_Scheme => ED25519
    case ED448_Scheme => ED448
    case UnknownScheme(_) => UnknownSignature(0)
  }
}
