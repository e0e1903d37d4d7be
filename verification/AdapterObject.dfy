/** The source adapter object: chain building, SPIFFE ID extraction and the two
    cached getters as one caller runs them. */
module AdapterObject {
  import opened Common
  import opened CacheEntry
  import opened Dedup
  import opened TrustBundle

  /** A URI of a certificate, and what parsing it as a SPIFFE ID gives. */
  datatype Uri = Uri(scheme: string, spiffeId: Option<string>)

  datatype Certificate = Certificate(leaf: Option<RawCert>, uris: seq<Uri>, chain: seq<Option<RawCert>>)

  datatype X509Svid = X509Svid(id: string, certificates: seq<RawCert>)

  datatype X509Bundle = X509Bundle(trustDomain: string, authorities: seq<RawCert>)

  datatype AdapterError = ProviderFailed | NoCertificate | NoSpiffeId | EmptyBundle

  function Raw(): RawCert -> string {
    (c: RawCert) => c.raw
  }

  /** The first spiffe URI decides, whether or not it parses. */
  function ExtractSpiffeId(uris: seq<Uri>): Option<string> {
    if uris == [] then None
    else if uris[0].scheme == "spiffe" then (if uris[0].spiffeId == Some("") then None else uris[0].spiffeId)
    else ExtractSpiffeId(uris[1..])
  }

  /** The URI at `i` has the scheme spiffe, and none before it has. */
  ghost predicate FirstSpiffe(uris: seq<Uri>, i: nat) {
    i < |uris| && uris[i].scheme == "spiffe" && forall j :: 0 <= j < i ==> uris[j].scheme != "spiffe"
  }

  /** `id` is what the first URI of scheme spiffe parses to, and is not empty. */
  ghost predicate Identifies(uris: seq<Uri>, id: string) {
    id != "" && exists i: nat :: FirstSpiffe(uris, i) && uris[i].spiffeId == Some(id)
  }

  lemma FirstSpiffeNext(uris: seq<Uri>, i: nat)
    requires uris != [] && uris[0].scheme != "spiffe"
    ensures !FirstSpiffe(uris, 0)
    ensures FirstSpiffe(uris, i + 1) <==> FirstSpiffe(uris[1..], i)
  {
    var rest := uris[1..];
    assert forall j :: 0 <= j < |rest| ==> rest[j] == uris[j + 1];
    assert forall j :: 0 < j < |uris| ==> uris[j] == rest[j - 1];
  }

  lemma {:induction false} ExtractsIff(uris: seq<Uri>, id: string)
    ensures ExtractSpiffeId(uris) == Some(id) <==> Identifies(uris, id)
  {
    if uris == [] {
    } else if uris[0].scheme == "spiffe" {
      assert FirstSpiffe(uris, 0);
    } else {
      var rest := uris[1..];
      ExtractsIff(rest, id);
      if i: nat :| FirstSpiffe(rest, i) && rest[i].spiffeId == Some(id) {
        FirstSpiffeNext(uris, i);
      }
      if i: nat :| FirstSpiffe(uris, i) && uris[i].spiffeId == Some(id) {
        FirstSpiffeNext(uris, i - 1);
      }
    }
  }

  /** So a certificate has at most one identity, and none exactly when its first URI of
      scheme spiffe, if any, does not parse to a name. */
  lemma NoneExtractedIff(uris: seq<Uri>)
    ensures ExtractSpiffeId(uris).None? <==>
            forall i: nat :: FirstSpiffe(uris, i) ==> uris[i].spiffeId.None? || uris[i].spiffeId == Some("")
  {
    if ExtractSpiffeId(uris).Some? {
      ExtractsIff(uris, ExtractSpiffeId(uris).value);
    } else if i: nat :| FirstSpiffe(uris, i) && uris[i].spiffeId.Some? && uris[i].spiffeId != Some("") {
      ExtractsIff(uris, uris[i].spiffeId.value);
    }
  }

  ghost function Chain(cert: Certificate): seq<RawCert> {
    if cert.leaf.None? then [] else FirstWins(Raw(), [cert.leaf.value] + NonNil(cert.chain))
  }

  method BuildCertificateChain(cert: Certificate) returns (certs: seq<RawCert>)
    ensures certs == Chain(cert)
  {
    if cert.leaf.None? {
      return [];
    }
    var leaf := cert.leaf.value;
    LeafAlone(leaf);
    var _, collected := CollectFirst(Raw(), cert.chain, [leaf], {leaf.raw}, [leaf]);
    return collected;
  }

  lemma LeafAlone(leaf: RawCert)
    ensures FirstWins(Raw(), [leaf]) == [leaf]
    ensures forall k :: HasKey(Raw(), [leaf], k) <==> k == leaf.raw
  {
    DistinctIsFixed(Raw(), [leaf]);
    HasKeyAppend(Raw(), [], leaf);
    assert [] + [leaf] == [leaf] && Raw()(leaf) == leaf.raw;
  }

  /** The chain starts with the leaf, repeats no raw certificate and drops none. */
  lemma ChainIsDeduplicated(cert: Certificate, k: string)
    requires cert.leaf.Some?
    ensures [cert.leaf.value] <= Chain(cert)
    ensures DistinctKeys(Raw(), Chain(cert))
    ensures HasKey(Raw(), Chain(cert), k) <==> k == cert.leaf.value.raw || HasKey(Raw(), NonNil(cert.chain), k)
  {
    var leaf, rest := [cert.leaf.value], NonNil(cert.chain);
    LeafAlone(cert.leaf.value);
    FirstWinsPrefix(Raw(), leaf, rest);
    FirstWinsDistinct(Raw(), leaf + rest);
    FirstWinsKeepsKeys(Raw(), leaf + rest, k);
    HasKeyConcat(Raw(), leaf, rest, k);
  }

  /** Behind the leaf the chain keeps the order of the intermediates: it is a stable
      selection of first occurrences. */
  lemma ChainKeepsOrder(cert: Certificate) returns (at: seq<nat>)
    requires cert.leaf.Some?
    ensures Selects(Raw(), [cert.leaf.value] + NonNil(cert.chain), at, Chain(cert))
  {
    at := FirstWinsPositions(Raw(), [cert.leaf.value] + NonNil(cert.chain));
  }

  /** Adding an authority that is already there has no effect. */
  function AddAuthority(authorities: seq<RawCert>, cert: RawCert): seq<RawCert> {
    if HasKey(Raw(), authorities, cert.raw) then authorities else authorities + [cert]
  }

  lemma {:induction false} AddIsFirstWins(certs: seq<RawCert>, cert: RawCert)
    ensures AddAuthority(FirstWins(Raw(), certs), cert) == FirstWins(Raw(), certs + [cert])
  {
    assert Raw()(cert) == cert.raw;
    FirstWinsKeepsKeys(Raw(), certs, cert.raw);
    FirstWinsAppend(Raw(), certs, cert);
  }

  /** What fetching an SVID makes of the provider's answer. */
  ghost function SvidFrom(answer: Option<Option<Certificate>>): Result<X509Svid, AdapterError> {
    if answer.None? then Err(ProviderFailed)
    else if answer.value.None? || answer.value.value.leaf.None? then Err(NoCertificate)
    else if ExtractSpiffeId(answer.value.value.uris).None? then Err(NoSpiffeId)
    else Ok(X509Svid(ExtractSpiffeId(answer.value.value.uris).value, Chain(answer.value.value)))
  }

  ghost function BundleFrom(answer: Option<Option<Bundle>>, domain: string): Result<X509Bundle, AdapterError> {
    if answer.None? then Err(ProviderFailed)
    else if answer.value.None? || NonNil(answer.value.value.certificates) == [] then Err(EmptyBundle)
    else Ok(X509Bundle(domain, FirstWins(Raw(), NonNil(answer.value.value.certificates))))
  }

  /** When an answer is good, and what each error means. */
  lemma SvidFromIff(answer: Option<Option<Certificate>>, id: string)
    ensures var r := SvidFrom(answer);
      && ((r.Ok? && r.value.id == id) <==>
            answer.Some? && answer.value.Some? && answer.value.value.leaf.Some?
            && Identifies(answer.value.value.uris, id))
      && (r.Ok? ==> r.value.certificates == Chain(answer.value.value))
      && (r == Err(ProviderFailed) <==> answer.None?)
      && (r == Err(NoCertificate) <==> answer.Some? && (answer.value.None? || answer.value.value.leaf.None?))
      && r != Err(EmptyBundle)
  {
    if answer.Some? && answer.value.Some? {
      ExtractsIff(answer.value.value.uris, id);
    }
  }

  /** A bundle is good exactly when it holds a certificate, and is then labelled with
      the trust domain that was asked for and holds each certificate once. */
  lemma BundleFromIff(answer: Option<Option<Bundle>>, domain: string, k: string)
    ensures var r := BundleFrom(answer, domain);
      && (r == Err(ProviderFailed) <==> answer.None?)
      && (r == Err(EmptyBundle) <==>
            answer.Some? && (answer.value.None? || forall c :: c in answer.value.value.certificates ==> c.None?))
      && (r.Ok? <==> answer.Some? && answer.value.Some? && exists c :: c in answer.value.value.certificates && c.Some?)
      && (r.Ok? ==>
            && r.value.trustDomain == domain && DistinctKeys(Raw(), r.value.authorities)
            && (HasKey(Raw(), r.value.authorities, k) <==> HasKey(Raw(), NonNil(answer.value.value.certificates), k)))
  {
    if answer.Some? && answer.value.Some? {
      var certs := answer.value.value.certificates;
      NonNilEmptyIff(certs);
      FirstWinsDistinct(Raw(), NonNil(certs));
      FirstWinsKeepsKeys(Raw(), NonNil(certs), k);
    }
  }

  /** The clock at the look under the read lock, at the look under the write lock
      and at the store. */
  datatype Clock = Clock(first: Time, second: Time, store: Time)

  class SourceAdapter {
    var cacheTtl: Time
    var cachedSvid: Option<X509Svid>
    var svidCacheEntry: Option<Entry>
    var cachedBundle: Option<X509Bundle>
    var bundleCacheEntry: Option<Entry>

    constructor (cacheTtl: Time)
      ensures this.cacheTtl == cacheTtl
      ensures cachedSvid.None? && svidCacheEntry.None? && cachedBundle.None? && bundleCacheEntry.None?
    {
      this.cacheTtl := cacheTtl;
      cachedSvid, svidCacheEntry, cachedBundle, bundleCacheEntry := None, None, None, None;
    }

    predicate SvidFreshAt(now: Time)
      reads this
    {
      cachedSvid.Some? && svidCacheEntry.Some? && svidCacheEntry.value.IsFreshAt(now)
    }

    predicate BundleFreshAt(now: Time)
      reads this
    {
      cachedBundle.Some? && bundleCacheEntry.Some? && bundleCacheEntry.value.IsFreshAt(now)
    }

    /** Served from the cache when fresh at either look; otherwise fetched, and
        cached only if the fetch succeeded. */
    method GetX509Svid(clock: Clock, answer: Option<Option<Certificate>>) returns (r: Result<X509Svid, AdapterError>)
      modifies `cachedSvid, `svidCacheEntry
      ensures old(SvidFreshAt(clock.first) || SvidFreshAt(clock.second)) ==>
                r == Ok(old(cachedSvid).value) && unchanged(this)
      ensures !old(SvidFreshAt(clock.first) || SvidFreshAt(clock.second)) ==>
        && r == SvidFrom(answer)
        && (r.Err? ==> unchanged(this))
        && (r.Ok? ==> cachedSvid == Some(r.value) && svidCacheEntry == Some(Entry(clock.store, cacheTtl)))
      ensures !old(SvidFreshAt(clock.first) || SvidFreshAt(clock.second)) ==>
        forall id :: r.Ok? && r.value.id == id <==>
          answer.Some? && answer.value.Some? && answer.value.value.leaf.Some?
          && Identifies(answer.value.value.uris, id)
    {
      if SvidFreshAt(clock.first) {
        return Ok(cachedSvid.value);
      }
      if SvidFreshAt(clock.second) {
        return Ok(cachedSvid.value);
      }
      forall id ensures SvidFrom(answer).Ok? && SvidFrom(answer).value.id == id <==>
          answer.Some? && answer.value.Some? && answer.value.value.leaf.Some?
          && Identifies(answer.value.value.uris, id) {
        SvidFromIff(answer, id);
      }
      if answer.None? {
        return Err(ProviderFailed);
      }
      if answer.value.None? || answer.value.value.leaf.None? {
        return Err(NoCertificate);
      }
      var cert := answer.value.value;
      var spiffeId := ExtractSpiffeId(cert.uris);
      if spiffeId.None? {
        return Err(NoSpiffeId);
      }
      var certs := BuildCertificateChain(cert);
      var svid := X509Svid(spiffeId.value, certs);
      cachedSvid := Some(svid);
      svidCacheEntry := Some(Entry(clock.store, cacheTtl));
      return Ok(svid);
    }

    /** A cached bundle answers for every trust domain. */
    method GetX509BundleForTrustDomain(domain: string, clock: Clock, answer: Option<Option<Bundle>>)
      returns (r: Result<X509Bundle, AdapterError>)
      modifies `cachedBundle, `bundleCacheEntry
      ensures old(BundleFreshAt(clock.first) || BundleFreshAt(clock.second)) ==>
                r == Ok(old(cachedBundle).value) && unchanged(this)
      ensures !old(BundleFreshAt(clock.first) || BundleFreshAt(clock.second)) ==>
        && r == BundleFrom(answer, domain)
        && (r.Err? ==> unchanged(this))
        && (r.Ok? ==> cachedBundle == Some(r.value) && bundleCacheEntry == Some(Entry(clock.store, cacheTtl)))
        && (r.Ok? ==> r.value.trustDomain == domain)
    {
      if BundleFreshAt(clock.first) {
        return Ok(cachedBundle.value);
      }
      if BundleFreshAt(clock.second) {
        return Ok(cachedBundle.value);
      }
      if answer.None? {
        return Err(ProviderFailed);
      }
      if answer.value.None? || NonNil(answer.value.value.certificates) == [] {
        return Err(EmptyBundle);
      }
      var certificates := answer.value.value.certificates;
      var authorities: seq<RawCert> := [];
      for i := 0 to |certificates|
        invariant authorities == FirstWins(Raw(), NonNil(certificates[..i]))
      {
        assert certificates[..i + 1] == certificates[..i] + [certificates[i]];
        NonNilAppend(certificates[..i], certificates[i]);
        if certificates[i].Some? {
          AddIsFirstWins(NonNil(certificates[..i]), certificates[i].value);
          authorities := AddAuthority(authorities, certificates[i].value);
        }
      }
      assert certificates[..|certificates|] == certificates;
      var bundle := X509Bundle(domain, authorities);
      cachedBundle := Some(bundle);
      bundleCacheEntry := Some(Entry(clock.store, cacheTtl));
      return Ok(bundle);
    }

    method InvalidateCache()
      modifies `cachedSvid, `svidCacheEntry, `cachedBundle, `bundleCacheEntry
      ensures forall now: Time :: !SvidFreshAt(now) && !BundleFreshAt(now)
    {
      cachedSvid, svidCacheEntry, cachedBundle, bundleCacheEntry := None, None, None, None;
    }

    /** Zero empties the cache; any other TTL leaves what is cached to its own. */
    method SetCacheTtl(ttl: Time)
      modifies this
      ensures cacheTtl == ttl
      ensures ttl == 0 ==> forall now: Time :: !SvidFreshAt(now) && !BundleFreshAt(now)
      ensures ttl != 0 ==>
        && cachedSvid == old(cachedSvid) && svidCacheEntry == old(svidCacheEntry)
        && cachedBundle == old(cachedBundle) && bundleCacheEntry == old(bundleCacheEntry)
    {
      cacheTtl := ttl;
      if ttl == 0 {
        cachedSvid, svidCacheEntry, cachedBundle, bundleCacheEntry := None, None, None, None;
      }
    }
  }
}
