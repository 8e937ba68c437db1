/** Choosing one suite from the peer's offer (client or server preference,
    as in section 7.4.1.3 of RFC 5246), narrowing a suite list by protocol
    version or signing algorithm, and asking whether a signature scheme is
    usable with some suite of a list. */
module Negotiation {
  import opened Sequences
  import opened Enums
  import opened Suites
  import opened Catalog

  /** The server supports none of the identifiers the client offered. */
  ghost predicate Disjoint(clientSuites: seq<CipherSuite>, serverSuites: seq<SupportedCipherSuite>) {
    forall i, k :: 0 <= i < |clientSuites| && 0 <= k < |serverSuites| ==>
      serverSuites[k].suite != clientSuites[i]
  }

  /** Walk the client's offer in its order; the first identifier the server
      supports selects the first server entry with that identifier. */
  function ChooseCipherSuitePreferringClient(
    clientSuites: seq<CipherSuite>, serverSuites: seq<SupportedCipherSuite>): (r: Option<SupportedCipherSuite>)
    ensures r.None? <==> Disjoint(clientSuites, serverSuites)
    ensures r.Some? ==> r.value in serverSuites && r.value.suite in clientSuites
  {
    if clientSuites == [] then None
    else
      match Find((x: SupportedCipherSuite) => clientSuites[0] == x.suite, serverSuites)
      case Some(selected) => Some(selected)
      case None =>
        var r := ChooseCipherSuitePreferringClient(clientSuites[1..], serverSuites);
        assert r.None? ==> Disjoint(clientSuites, serverSuites) by {
          if r.None? {
            forall i, k | 0 <= i < |clientSuites| && 0 <= k < |serverSuites|
              ensures serverSuites[k].suite != clientSuites[i]
            {
              if i > 0 { assert clientSuites[i] == clientSuites[1..][i - 1]; }
            }
          }
        }
        r
  }

  /** Client preference selects the first server entry carrying the
      earliest client identifier that the server supports. */
  lemma {:induction false} ClientPreferenceChoice(
    clientSuites: seq<CipherSuite>, serverSuites: seq<SupportedCipherSuite>, i: nat, k: nat)
    requires i < |clientSuites| && k < |serverSuites|
    requires Disjoint(clientSuites[..i], serverSuites)
    requires serverSuites[k].suite == clientSuites[i]
    requires forall m :: 0 <= m < k ==> serverSuites[m].suite != clientSuites[i]
    ensures ChooseCipherSuitePreferringClient(clientSuites, serverSuites) == Some(serverSuites[k])
  {
    if i > 0 {
      assert forall m :: 0 <= m < |serverSuites| ==> serverSuites[m].suite != clientSuites[0] by {
        assert clientSuites[..i][0] == clientSuites[0];
      }
      var rest := clientSuites[1..];
      var skipped := rest[..i - 1];
      assert Disjoint(skipped, serverSuites) by {
        forall j, m | 0 <= j < |skipped| && 0 <= m < |serverSuites|
          ensures serverSuites[m].suite != skipped[j]
        {
          assert skipped[j] == clientSuites[..i][j + 1];
        }
      }
      ClientPreferenceChoice(rest, serverSuites, i - 1, k);
    }
  }

  /** Take the first server entry, in the server's order, whose identifier
      the client offered anywhere in its list. */
  function ChooseCipherSuitePreferringServer(
    clientSuites: seq<CipherSuite>, serverSuites: seq<SupportedCipherSuite>): (r: Option<SupportedCipherSuite>)
    ensures r.None? <==> Disjoint(clientSuites, serverSuites)
    ensures r.Some? ==>
      exists k :: 0 <= k < |serverSuites| && serverSuites[k] == r.value && r.value.suite in clientSuites &&
        forall m :: 0 <= m < k ==> serverSuites[m].suite !in clientSuites
  {
    Find((x: SupportedCipherSuite) => x.suite in clientSuites, serverSuites)
  }

  /** Server preference selects the earliest server entry whose identifier
      the client offered. */
  lemma ServerPreferenceChoice(clientSuites: seq<CipherSuite>, serverSuites: seq<SupportedCipherSuite>, k: nat)
    requires k < |serverSuites| && serverSuites[k].suite in clientSuites
    requires forall m :: 0 <= m < k ==> serverSuites[m].suite !in clientSuites
    ensures ChooseCipherSuitePreferringServer(clientSuites, serverSuites) == Some(serverSuites[k])
  {
  }

  /** When exactly one server entry carries an identifier the client
      offered, both policies pick that entry. (They also fail on the same
      offers: each returns nothing exactly when the lists are `Disjoint`.) */
  lemma PoliciesAgreeOnSingleCommonSuite(
    clientSuites: seq<CipherSuite>, serverSuites: seq<SupportedCipherSuite>, k: nat)
    requires k < |serverSuites| && serverSuites[k].suite in clientSuites
    requires forall m :: 0 <= m < |serverSuites| && serverSuites[m].suite in clientSuites ==> m == k
    ensures ChooseCipherSuitePreferringClient(clientSuites, serverSuites) == Some(serverSuites[k])
    ensures ChooseCipherSuitePreferringServer(clientSuites, serverSuites) == Some(serverSuites[k])
  {
    ServerPreferenceChoice(clientSuites, serverSuites, k);
    var i :| 0 <= i < |clientSuites| && clientSuites[i] == serverSuites[k].suite;
    var i0 := EarliestIndexOf(clientSuites, serverSuites[k].suite, i);
    assert Disjoint(clientSuites[..i0], serverSuites) by {
      forall j, m | 0 <= j < i0 && 0 <= m < |serverSuites|
        ensures serverSuites[m].suite != clientSuites[..i0][j]
      {
        assert clientSuites[..i0][j] == clientSuites[j];
      }
    }
    ClientPreferenceChoice(clientSuites, serverSuites, i0, k);
  }

  /** The first position at which `id` occurs, given one occurrence. */
  lemma {:induction false} EarliestIndexOf(s: seq<CipherSuite>, id: CipherSuite, i: nat) returns (i0: nat)
    requires i < |s| && s[i] == id
    ensures i0 <= i && s[i0] == id
    ensures forall j :: 0 <= j < i0 ==> s[j] != id
  {
    if exists j :: 0 <= j < i && s[j] == id {
      var j :| 0 <= j < i && s[j] == id;
      i0 := EarliestIndexOf(s, id, j);
    } else {
      i0 := i;
    }
  }

  /** The entries of `all` usable with signing algorithm `sigalg`, in the
      order of `all`. */
  function ReduceGivenSigalg(all: seq<SupportedCipherSuite>, sigalg: SignatureAlgorithm): (r: seq<SupportedCipherSuite>)
    ensures IsSubsequence(r, all)
    ensures forall x :: x in r <==> x in all && UsableForSigalg(x, sigalg)
    ensures forall x :: multiset(r)[x] == if UsableForSigalg(x, sigalg) then multiset(all)[x] else 0
  {
    FilterSpec(suite => UsableForSigalg(suite, sigalg), all);
    Filter(suite => UsableForSigalg(suite, sigalg), all)
  }

  /** The entries of `all` usable for protocol version `version`, in the
      order of `all`. */
  function ReduceGivenVersion(all: seq<SupportedCipherSuite>, version: ProtocolVersion): (r: seq<SupportedCipherSuite>)
    ensures IsSubsequence(r, all)
    ensures forall x :: x in r <==> x in all && UsableForVersion(x, version)
    ensures forall x :: multiset(r)[x] == if UsableForVersion(x, version) then multiset(all)[x] else 0
  {
    FilterSpec(suite => UsableForVersion(suite, version), all);
    Filter(suite => UsableForVersion(suite, version), all)
  }

  /** The subsequence and multiplicity facts of ReduceGivenSigalg single out
      its result: no other list meets them. */
  lemma ReduceGivenSigalgIsExact(all: seq<SupportedCipherSuite>, sigalg: SignatureAlgorithm, r: seq<SupportedCipherSuite>)
    requires IsSubsequence(r, all)
    requires forall x :: multiset(r)[x] == if UsableForSigalg(x, sigalg) then multiset(all)[x] else 0
    ensures r == ReduceGivenSigalg(all, sigalg)
  {
    FilterUnique(suite => UsableForSigalg(suite, sigalg), all, r);
  }

  /** The subsequence and multiplicity facts of ReduceGivenVersion single out
      its result: no other list meets them. */
  lemma ReduceGivenVersionIsExact(all: seq<SupportedCipherSuite>, version: ProtocolVersion, r: seq<SupportedCipherSuite>)
    requires IsSubsequence(r, all)
    requires forall x :: multiset(r)[x] == if UsableForVersion(x, version) then multiset(all)[x] else 0
    ensures r == ReduceGivenVersion(all, version)
  {
    FilterUnique(suite => UsableForVersion(suite, version), all, r);
  }

  lemma ReduceGivenSigalgIdempotent(all: seq<SupportedCipherSuite>, sigalg: SignatureAlgorithm)
    ensures ReduceGivenSigalg(ReduceGivenSigalg(all, sigalg), sigalg) == ReduceGivenSigalg(all, sigalg)
  {
    FilterIdempotent(suite => UsableForSigalg(suite, sigalg), all);
  }

  lemma ReduceGivenVersionIdempotent(all: seq<SupportedCipherSuite>, version: ProtocolVersion)
    ensures ReduceGivenVersion(ReduceGivenVersion(all, version), version) == ReduceGivenVersion(all, version)
  {
    FilterIdempotent(suite => UsableForVersion(suite, version), all);
  }

  /** Narrowing by version and by signing algorithm gives the same list in
      either order. */
  lemma ReductionsCommute(all: seq<SupportedCipherSuite>, version: ProtocolVersion, sigalg: SignatureAlgorithm)
    ensures ReduceGivenVersion(ReduceGivenSigalg(all, sigalg), version) ==
            ReduceGivenSigalg(ReduceGivenVersion(all, version), sigalg)
  {
    FilterCommutes(suite => UsableForVersion(suite, version), suite => UsableForSigalg(suite, sigalg), all);
  }

  /** Some suite of `commonSuites` is usable with the signing algorithm of
      `sigscheme`. */
  function CompatibleSigschemeForSuites(sigscheme: SignatureScheme, commonSuites: seq<SupportedCipherSuite>): (b: bool)
    ensures b <==> exists i :: 0 <= i < |commonSuites| && UsableForSigalg(commonSuites[i], Sign(sigscheme))
  {
    var sigalg := Sign(sigscheme);
    Any(suite => UsableForSigalg(suite, sigalg), commonSuites)
  }

  /** A scheme is compatible exactly when narrowing the list by its signing
      algorithm leaves something. */
  lemma CompatibleIffReductionNonEmpty(sigscheme: SignatureScheme, commonSuites: seq<SupportedCipherSuite>)
    ensures CompatibleSigschemeForSuites(sigscheme, commonSuites) <==>
      ReduceGivenSigalg(commonSuites, Sign(sigscheme)) != []
  {
    FilterEmpty(suite => UsableForSigalg(suite, Sign(sigscheme)), commonSuites);
  }

  // ---------------------------------------------------------------------
  // The outcomes the library's tests fix

  lemma ClientPreferenceExample()
    ensures ChooseCipherSuitePreferringClient(
      [TLS_ECDHE_RSA_WITH_AES_128_GCM_SHA256, TLS_ECDHE_RSA_WITH_AES_256_GCM_SHA384],
      [TlsEcdheRsaWithAes256GcmSha384, TlsEcdheRsaWithAes128GcmSha256])
      == Some(TlsEcdheRsaWithAes128GcmSha256)
  {
    ClientPreferenceChoice(
      [TLS_ECDHE_RSA_WITH_AES_128_GCM_SHA256, TLS_ECDHE_RSA_WITH_AES_256_GCM_SHA384],
      [TlsEcdheRsaWithAes256GcmSha384, TlsEcdheRsaWithAes128GcmSha256], 0, 1);
  }

  lemma ServerPreferenceExample()
    ensures ChooseCipherSuitePreferringServer(
      [TLS_ECDHE_RSA_WITH_AES_128_GCM_SHA256, TLS_ECDHE_RSA_WITH_AES_256_GCM_SHA384],
      [TlsEcdheRsaWithAes256GcmSha384, TlsEcdheRsaWithAes128GcmSha256])
      == Some(TlsEcdheRsaWithAes256GcmSha384)
  {
  }

  lemma NullSuiteIsNeverChosen()
    ensures ChooseCipherSuitePreferringClient([TLS_NULL_WITH_NULL_NULL], AllCipherSuites).None?
    ensures ChooseCipherSuitePreferringServer([TLS_NULL_WITH_NULL_NULL], AllCipherSuites).None?
  {
  }

  /** Narrowing the catalog to TLS1.3 keeps exactly its first three entries. */
  lemma CatalogForTls13()
    ensures ReduceGivenVersion(AllCipherSuites, TLSv1_3) == AllCipherSuites[..3]
  {
    CatalogVersions();
    FilterPrefix(suite => UsableForVersion(suite, TLSv1_3), AllCipherSuites, 3);
  }

  /** Narrowing the catalog to TLS1.2 keeps exactly its last six entries. */
  lemma CatalogForTls12()
    ensures ReduceGivenVersion(AllCipherSuites, TLSv1_2) == AllCipherSuites[3..]
  {
    CatalogVersions();
    FilterSuffix(suite => UsableForVersion(suite, TLSv1_2), AllCipherSuites, 3);
  }

  /** Narrowing the catalog to any other version leaves nothing. */
  lemma CatalogForOtherVersions(version: ProtocolVersion)
    requires version != TLSv1_2 && version != TLSv1_3
    ensures ReduceGivenVersion(AllCipherSuites, version) == []
  {
    FilterEmpty(suite => UsableForVersion(suite, version), AllCipherSuites);
  }

  /** With an ECDSA or Ed25519 key the catalog narrows to the TLS1.3 suites
      and the TLS1.2 ECDSA suites, which are its first six entries. */
  lemma CatalogForEcdsaKeys(sigalg: SignatureAlgorithm)
    requires sigalg == ECDSA || sigalg == ED25519
    ensures ReduceGivenSigalg(AllCipherSuites, sigalg) == AllCipherSuites[..6]
  {
    var p := suite => UsableForSigalg(suite, sigalg);
    assert forall i :: 0 <= i < |AllCipherSuites| ==> (p(AllCipherSuites[i]) <==> i < 6) by {
      assert Sign(Tls12EcdsaSchemes[0]) == ED25519 && Sign(Tls12EcdsaSchemes[1]) == ECDSA;
      assert forall j :: 0 <= j < |Tls12RsaSchemes| ==> Sign(Tls12RsaSchemes[j]) == RSA;
    }
    FilterPrefix(p, AllCipherSuites, 6);
  }

  /** The TLS1.2 ECDSA entries accept no RSA key. */
  lemma EcdsaEntriesRejectRsa()
    ensures forall i :: 3 <= i < 6 ==> !UsableForSigalg(AllCipherSuites[i], RSA)
  {
    assert forall j :: 0 <= j < |Tls12EcdsaSchemes| ==> Sign(Tls12EcdsaSchemes[j]) != RSA;
  }

  /** The TLS1.2 RSA entries accept an RSA key. */
  lemma RsaEntriesAcceptRsa()
    ensures forall i :: 6 <= i < 9 ==> UsableForSigalg(AllCipherSuites[i], RSA)
  {
    assert Sign(Tls12RsaSchemes[0]) == RSA;
  }

  /** With an RSA key the catalog narrows to the TLS1.3 suites and the
      TLS1.2 RSA suites, keeping catalog order. */
  lemma CatalogForRsaKeys()
    ensures ReduceGivenSigalg(AllCipherSuites, RSA) == AllCipherSuites[..3] + AllCipherSuites[6..]
  {
    var p := suite => UsableForSigalg(suite, RSA);
    var all := AllCipherSuites;
    var head, rsa := all[..6], all[6..];
    assert all == head + rsa;
    FilterConcat(p, head, rsa);
    EcdsaEntriesRejectRsa();
    RsaEntriesAcceptRsa();
    assert forall i :: 0 <= i < |head| ==> (p(head[i]) <==> i < 3) by {
      assert forall i :: 0 <= i < |head| ==> head[i] == all[i];
    }
    assert forall i :: 0 <= i < |rsa| ==> p(rsa[i]) by {
      assert forall i :: 0 <= i < |rsa| ==> rsa[i] == all[i + 6];
    }
    FilterPrefix(p, head, 3);
    FilterKeepsPassing(p, rsa);
    assert head[..3] == all[..3];
  }

  /** Against a peer offering RSA-PKCS1-SHA256 then RSA-PSS-SHA512, every
      TLS1.2 RSA suite resolves to its own order, PSS first; TLS1.3 suites
      resolve to nothing whatever is offered. */
  lemma ResolveSigSchemesExample(scs: SupportedCipherSuite, offered: seq<SignatureScheme>)
    requires scs.sign == Some(Tls12RsaSchemes)
    ensures ResolveSigSchemes(scs, [RSA_PKCS1_SHA256, RSA_PSS_SHA512]) == [RSA_PSS_SHA512, RSA_PKCS1_SHA256]
    ensures ResolveSigSchemes(Tls13Aes128GcmSha256, offered) == []
  {
  }
}
