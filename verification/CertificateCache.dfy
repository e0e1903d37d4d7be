/** The certificate cache of the identity service, over any sequence of calls.
    One lock spans a whole call, so calls are atomic. The read of the service name
    inside the fetch is modelled as lock-free; LockedRead tells what the real one
    does. */
module CertificateCache {
  import opened Common
  import opened CacheEntry

  datatype Leaf = Leaf(notBefore: Time, notAfter: Time)

  /** A certificate wrapper whose X.509 leaf may be nil. */
  datatype Cert = Cert(serial: int, leaf: Option<Leaf>)

  datatype Reply = ProviderError | Got(cert: Option<Cert>)

  const MAX_RETRIES: nat := 3

  /** One call: the clock at the freshness test, at the validity check, at the
      expiry test and at the store, and what the provider answers each attempt. */
  datatype Call = Call(looked: Time, checked: Time, measured: Time, stored: Time, replies: seq<Reply>)

  datatype Outcome = Served(cert: Option<Cert>, fetched: bool) | Unavailable | Panicked

  datatype Config = Config(ttl: Time, refreshThreshold: Time, validate: (Cert, Time) -> bool)

  datatype Cache = Cache(cert: Option<Cert>, entry: Option<Entry>, hits: nat, misses: nat)

  const EMPTY: Cache := Cache(None, None, 0, 0)

  predicate ExpiringWithin(c: Cert, now: Time, threshold: Time) {
    c.leaf.None? || c.leaf.value.notAfter - now <= threshold
  }

  predicate FreshHit(cache: Cache, call: Call) {
    cache.cert.Some? && cache.entry.Some? && cache.entry.value.IsFreshAt(call.looked)
  }

  predicate Usable(config: Config, cache: Cache, call: Call) {
    && FreshHit(cache, call)
    && config.validate(cache.cert.value, call.checked)
    && !ExpiringWithin(cache.cert.value, call.measured, config.refreshThreshold)
  }

  /** The first answer that is not an error. */
  function FirstGot(replies: seq<Reply>): Option<Option<Cert>> {
    if replies == [] then None
    else if replies[0].Got? then Some(replies[0].cert)
    else FirstGot(replies[1..])
  }

  function Do(config: Config, cache: Cache, call: Call): (Cache, Outcome)
    requires |call.replies| == MAX_RETRIES
  {
    if Usable(config, cache, call) then (cache.(hits := cache.hits + 1), Served(cache.cert, false))
    else
      var kept := if FreshHit(cache, call) then None else cache.cert;
      var missed := cache.(cert := kept, misses := cache.misses + 1);
      match FirstGot(call.replies)
      case None => (missed, Unavailable)
      case Some(cert) =>
        if kept.Some? && kept.value.leaf.None? then (missed, Panicked)
        else (missed.(cert := cert, entry := Some(Entry(call.stored, config.ttl))), Served(cert, true))
  }

  ghost predicate WellFormed(calls: seq<Call>) {
    forall i :: 0 <= i < |calls| ==> |calls[i].replies| == MAX_RETRIES
  }

  ghost function Run(config: Config, calls: seq<Call>): Cache
    requires WellFormed(calls)
  {
    if calls == [] then EMPTY else Do(config, Run(config, calls[..|calls| - 1]), calls[|calls| - 1]).0
  }

  ghost function OutcomeOf(config: Config, calls: seq<Call>, i: nat): Outcome
    requires WellFormed(calls) && i < |calls|
  {
    Do(config, Run(config, calls[..i]), calls[i]).1
  }

  /** Call `j` fetched, and no call after it did. */
  ghost predicate LastFetch(config: Config, calls: seq<Call>, j: nat)
    requires WellFormed(calls)
  {
    && j < |calls|
    && OutcomeOf(config, calls, j).Served? && OutcomeOf(config, calls, j).fetched
    && forall k :: j < k < |calls| ==> !(OutcomeOf(config, calls, k).Served? && OutcomeOf(config, calls, k).fetched)
  }

  lemma OutcomeOfPrefix(config: Config, calls: seq<Call>, n: nat, i: nat)
    requires WellFormed(calls) && i < n <= |calls|
    ensures OutcomeOf(config, calls[..n], i) == OutcomeOf(config, calls, i)
  {
    assert calls[..n][..i] == calls[..i];
  }

  /** What is cached comes from the latest fetch, stored then under the TTL. */
  lemma {:induction false} CachedIsLastFetched(config: Config, calls: seq<Call>) returns (j: nat)
    requires WellFormed(calls) && Run(config, calls).cert.Some?
    ensures LastFetch(config, calls, j)
    ensures OutcomeOf(config, calls, j) == Served(Run(config, calls).cert, true)
    ensures Run(config, calls).entry == Some(Entry(calls[j].stored, config.ttl))
  {
    var n := |calls| - 1;
    var before := Run(config, calls[..n]);
    var (cache, outcome) := Do(config, before, calls[n]);
    assert calls[..|calls|] == calls;
    if outcome.Served? && outcome.fetched {
      j := n;
    } else {
      j := CachedIsLastFetched(config, calls[..n]);
      OutcomeOfPrefix(config, calls, n, j);
      forall k | j < k < |calls|
        ensures !(OutcomeOf(config, calls, k).Served? && OutcomeOf(config, calls, k).fetched)
      {
        if k < n {
          OutcomeOfPrefix(config, calls, n, k);
        }
      }
    }
  }

  /** A certificate served from the cache is the one of the latest fetch, was
      stored less than one TTL before the look-up, passes the validity check and
      expires later than the refresh threshold from now. */
  lemma CacheHitsAreSound(config: Config, calls: seq<Call>, i: nat) returns (j: nat)
    requires WellFormed(calls) && i < |calls|
    requires OutcomeOf(config, calls, i).Served? && !OutcomeOf(config, calls, i).fetched
    ensures j < i && LastFetch(config, calls[..i], j)
    ensures OutcomeOf(config, calls, j) == Served(OutcomeOf(config, calls, i).cert, true)
    ensures calls[i].looked < calls[j].stored + config.ttl
    ensures var cert := OutcomeOf(config, calls, i).cert;
      && cert.Some? && cert.value.leaf.Some?
      && config.validate(cert.value, calls[i].checked)
      && cert.value.leaf.value.notAfter > calls[i].measured + config.refreshThreshold
  {
    j := CachedIsLastFetched(config, calls[..i]);
    OutcomeOfPrefix(config, calls, i, j);
    assert calls[..i][j] == calls[j];
  }

  /** The converse, for every state of the cache: a cached certificate is served, as a
      hit that changes nothing else, if and only if it has a leaf, was stored less than
      one TTL before the look-up, passes the validity check and ends later than the
      refresh threshold from now. */
  lemma ServedFromCacheIff(config: Config, cache: Cache, call: Call, c: Cert, e: Entry)
    requires |call.replies| == MAX_RETRIES && cache.cert == Some(c) && cache.entry == Some(e)
    ensures Do(config, cache, call) == (Cache(Some(c), Some(e), cache.hits + 1, cache.misses), Served(Some(c), false))
        <==>
        && call.looked < e.fetchedAt + e.ttl
        && config.validate(c, call.checked)
        && c.leaf.Some? && c.leaf.value.notAfter > call.measured + config.refreshThreshold
  {
  }

  /** This call found the certificate fresh and turned it away all the same. */
  ghost predicate TurnsAway(config: Config, c: Cert, storedAt: Time, call: Call) {
    && call.looked < storedAt + config.ttl
    && !(&& config.validate(c, call.checked)
         && c.leaf.Some? && c.leaf.value.notAfter > call.measured + config.refreshThreshold)
  }

  /** No call between the `j`-th and the `n`-th turned away what the `j`-th fetched. */
  ghost predicate Kept(config: Config, calls: seq<Call>, j: nat, n: nat, c: Cert)
    requires j < n <= |calls|
  {
    forall k :: j < k < n ==> !TurnsAway(config, c, calls[j].stored, calls[k])
  }

  /** A call that does not fetch keeps the cell unless it turns the certificate away. */
  lemma KeepsOrTurnsAway(config: Config, cache: Cache, call: Call, storedAt: Time)
    requires |call.replies| == MAX_RETRIES && cache.entry == Some(Entry(storedAt, config.ttl))
    requires var outcome := Do(config, cache, call).1; !(outcome.Served? && outcome.fetched)
    ensures var after := Do(config, cache, call).0;
      && after.entry == cache.entry
      && after.cert ==
         if cache.cert.Some? && TurnsAway(config, cache.cert.value, storedAt, call) then None else cache.cert
  {
  }

  lemma KeptBefore(config: Config, calls: seq<Call>, j: nat, n: nat, c: Cert)
    requires j < n <= |calls|
    ensures Kept(config, calls[..n], j, n, c) <==> Kept(config, calls, j, n, c)
  {
    assert calls[..n][j] == calls[j] && forall k :: j < k < n ==> calls[..n][k] == calls[k];
  }

  lemma KeptNext(config: Config, calls: seq<Call>, j: nat, n: nat, c: Cert)
    requires j < n < |calls|
    ensures Kept(config, calls[..n], j, n, c) <==> Kept(config, calls, j, n, c)
    ensures Kept(config, calls, j, n + 1, c) <==>
            Kept(config, calls, j, n, c) && !TurnsAway(config, c, calls[j].stored, calls[n])
  {
    KeptBefore(config, calls, j, n, c);
  }

  lemma LastFetchBefore(config: Config, calls: seq<Call>, j: nat, n: nat)
    requires WellFormed(calls) && LastFetch(config, calls, j) && j < n <= |calls|
    ensures LastFetch(config, calls[..n], j) && OutcomeOf(config, calls[..n], j) == OutcomeOf(config, calls, j)
  {
    forall k: nat | k < n ensures OutcomeOf(config, calls[..n], k) == OutcomeOf(config, calls, k) {
      OutcomeOfPrefix(config, calls, n, k);
    }
  }

  /** What the cache holds, read off the calls: the certificate of the latest fetch
      until a call turns it away. */
  lemma {:induction false} CacheHoldsLastFetch(config: Config, calls: seq<Call>, j: nat)
    requires WellFormed(calls) && LastFetch(config, calls, j)
    ensures Run(config, calls).entry == Some(Entry(calls[j].stored, config.ttl))
    ensures var fetched := OutcomeOf(config, calls, j).cert;
      Run(config, calls).cert ==
      if fetched.Some? && Kept(config, calls, j, |calls|, fetched.value) then fetched else None
  {
    var n := |calls| - 1;
    if j < n {
      LastFetchBefore(config, calls, j, n);
      CacheHoldsLastFetch(config, calls[..n], j);
      assert OutcomeOf(config, calls, n) == Do(config, Run(config, calls[..n]), calls[n]).1;
      KeepsOrTurnsAway(config, Run(config, calls[..n]), calls[n], calls[j].stored);
      var fetched := OutcomeOf(config, calls, j).cert;
      if fetched.Some? {
        KeptNext(config, calls, j, n, fetched.value);
      }
    }
  }

  ghost predicate IsHit(config: Config, calls: seq<Call>, i: nat)
    requires WellFormed(calls) && i < |calls|
  {
    OutcomeOf(config, calls, i).Served? && !OutcomeOf(config, calls, i).fetched
  }

  /** In every run: a call is served from the cache if and only if the latest fetch
      before it brought a certificate with a leaf that no call since has turned away,
      and that is young, valid and far enough from its end now. */
  lemma HitIff(config: Config, calls: seq<Call>, i: nat)
    requires WellFormed(calls) && i < |calls|
    ensures IsHit(config, calls, i) <==>
      exists j: nat, c: Cert ::
        && j < i && LastFetch(config, calls[..i], j)
        && OutcomeOf(config, calls, j) == Served(Some(c), true) && Kept(config, calls, j, i, c)
        && calls[i].looked < calls[j].stored + config.ttl
        && config.validate(c, calls[i].checked)
        && c.leaf.Some? && c.leaf.value.notAfter > calls[i].measured + config.refreshThreshold
  {
    if IsHit(config, calls, i) {
      var j := CacheHitsAreSound(config, calls, i);
      var c := OutcomeOf(config, calls, i).cert.value;
      CacheHoldsLastFetch(config, calls[..i], j);
      OutcomeOfPrefix(config, calls, i, j);
      KeptBefore(config, calls, j, i, c);
      assert OutcomeOf(config, calls, j) == Served(Some(c), true);
    }
    if j: nat, c: Cert :|
      && j < i && LastFetch(config, calls[..i], j)
      && OutcomeOf(config, calls, j) == Served(Some(c), true) && Kept(config, calls, j, i, c)
      && calls[i].looked < calls[j].stored + config.ttl
      && config.validate(c, calls[i].checked)
      && c.leaf.Some? && c.leaf.value.notAfter > calls[i].measured + config.refreshThreshold
    {
      CacheHoldsLastFetch(config, calls[..i], j);
      OutcomeOfPrefix(config, calls, i, j);
      KeptBefore(config, calls, j, i, c);
      ServedFromCacheIff(config, Run(config, calls[..i]), calls[i], c, Entry(calls[j].stored, config.ttl));
    }
  }

  /** Of the first `n` calls, those served from the cache. */
  ghost function HitsAmong(config: Config, calls: seq<Call>, n: nat): nat
    requires WellFormed(calls) && n <= |calls|
  {
    if n == 0 then 0 else HitsAmong(config, calls, n - 1) + if IsHit(config, calls, n - 1) then 1 else 0
  }

  /** Recorded hits are the calls served from the cache, recorded misses the others. */
  lemma {:induction false} HitsAreServedFromCache(config: Config, calls: seq<Call>, n: nat)
    requires WellFormed(calls) && n <= |calls|
    ensures Run(config, calls[..n]).hits == HitsAmong(config, calls, n)
    ensures Run(config, calls[..n]).misses == n - HitsAmong(config, calls, n)
  {
    if n > 0 {
      HitsAreServedFromCache(config, calls, n - 1);
      assert calls[..n][..n - 1] == calls[..n - 1];
    }
  }

  /** `cert` is the first answer among the replies, all before it being errors. */
  ghost predicate FirstAnswer(replies: seq<Reply>, cert: Option<Cert>) {
    exists k :: 0 <= k < |replies| && replies[k] == Got(cert) && forall i :: 0 <= i < k ==> replies[i].ProviderError?
  }

  lemma {:induction false} FirstGotIff(replies: seq<Reply>, cert: Option<Cert>)
    ensures FirstGot(replies) == Some(cert) <==> FirstAnswer(replies, cert)
  {
    if replies != [] {
      var rest := replies[1..];
      FirstGotIff(rest, cert);
      if k :| 0 <= k < |rest| && rest[k] == Got(cert) && forall i :: 0 <= i < k ==> rest[i].ProviderError? {
        assert replies[k + 1] == Got(cert);
        assert forall i :: 0 < i < k + 1 ==> replies[i] == rest[i - 1];
      }
      if k :| 0 < k < |replies| && replies[k] == Got(cert) && forall i :: 0 <= i < k ==> replies[i].ProviderError? {
        assert rest[k - 1] == Got(cert);
      }
    }
  }

  /** Every other call answers with the provider's first answer to it, and is
      unavailable exactly when all answers are errors. */
  lemma MissesAskProvider(config: Config, calls: seq<Call>, i: nat)
    requires WellFormed(calls) && i < |calls|
    ensures var outcome := OutcomeOf(config, calls, i);
      && (outcome.Served? && outcome.fetched ==> FirstAnswer(calls[i].replies, outcome.cert))
      && (outcome.Unavailable? <==> !IsHit(config, calls, i) && forall r :: r in calls[i].replies ==> r.ProviderError?)
  {
    var outcome := OutcomeOf(config, calls, i);
    if outcome.Served? {
      FirstGotIff(calls[i].replies, outcome.cert);
    }
    GotIff(calls[i].replies);
  }

  /** Each call is counted once, as a hit or as a miss. */
  lemma {:induction false} HitsPlusMisses(config: Config, calls: seq<Call>)
    requires WellFormed(calls)
    ensures Run(config, calls).hits + Run(config, calls).misses == |calls|
  {
    if calls != [] {
      HitsPlusMisses(config, calls[..|calls| - 1]);
    }
  }

  /** The refresh-reason metric dereferences the leaf of a stale certificate: a call
      panics exactly when a wrapper without leaf has gone stale and the provider
      answers. */
  lemma PanicsIff(config: Config, cache: Cache, call: Call)
    requires |call.replies| == MAX_RETRIES
    ensures Do(config, cache, call).1.Panicked? <==>
            && cache.cert.Some? && cache.cert.value.leaf.None?
            && (cache.entry.Some? ==> !cache.entry.value.IsFreshAt(call.looked))
            && exists r :: r in call.replies && r.Got?
  {
    GotIff(call.replies);
  }

  /** Two calls from an empty cache suffice: the provider hands out a wrapper
      without leaf, and answers again once it has gone stale. */
  lemma PanicIsReachable(config: Config, serial: int, t: Time) returns (calls: seq<Call>)
    ensures WellFormed(calls) && |calls| == 2
    ensures OutcomeOf(config, calls, 0) == Served(Some(Cert(serial, None)), true)
    ensures OutcomeOf(config, calls, 1) == Panicked
  {
    var got := Got(Some(Cert(serial, None)));
    var later := t + config.ttl;
    calls := [Call(t, t, t, t, [got, got, got]), Call(later, later, later, later, [got, got, got])];
    assert calls[..0] == [] && calls[..1] == [calls[0]] && [calls[0]][..0] == [];
    assert Run(config, [calls[0]]) == Cache(Some(Cert(serial, None)), Some(Entry(t, config.ttl)), 0, 1);
  }

  lemma {:induction false} GotIff(replies: seq<Reply>)
    ensures FirstGot(replies).Some? <==> exists r :: r in replies && r.Got?
  {
    if replies != [] {
      GotIff(replies[1..]);
      if !replies[0].Got? && FirstGot(replies[1..]).Some? {
        var r :| r in replies[1..] && r.Got?;
        assert r in replies;
      } else if replies[0].Got? {
        assert replies[0] in replies;
      }
    }
  }

  class IdentityService {
    const config: Config
    var cachedCert: Option<Cert>
    var certCacheEntry: Option<Entry>
    var hits: nat
    var misses: nat

    function View(): Cache
      reads this
    {
      Cache(cachedCert, certCacheEntry, hits, misses)
    }

    constructor (config: Config)
      ensures this.config == config && View() == EMPTY
    {
      this.config := config;
      cachedCert, certCacheEntry, hits, misses := None, None, 0, 0;
    }

    /** At most three attempts, stopping at the first success. */
    method FetchCertificateWithRetry(replies: seq<Reply>) returns (cert: Option<Option<Cert>>, attempts: nat)
      requires |replies| == MAX_RETRIES
      ensures cert == FirstGot(replies)
      ensures attempts <= MAX_RETRIES
      ensures forall k :: 0 <= k < attempts ==> (replies[k].Got? <==> k == attempts - 1 && cert.Some?)
      ensures cert.None? ==> attempts == MAX_RETRIES
      ensures cert.Some? ==> attempts > 0 && replies[attempts - 1] == Got(cert.value)
    {
      attempts := 0;
      while attempts < MAX_RETRIES
        invariant attempts <= MAX_RETRIES
        invariant FirstGot(replies) == FirstGot(replies[attempts..])
        invariant forall k :: 0 <= k < attempts ==> replies[k].ProviderError?
      {
        assert replies[attempts..][1..] == replies[attempts + 1..];
        var reply := replies[attempts];
        attempts := attempts + 1;
        if reply.Got? {
          return Some(reply.cert), attempts;
        }
      }
      return None, attempts;
    }

    method GetCertificate(call: Call) returns (outcome: Outcome)
      requires |call.replies| == MAX_RETRIES
      modifies this
      ensures (View(), outcome) == Do(config, old(View()), call)
      ensures outcome.Served? && !outcome.fetched <==>
        && old(cachedCert).Some? && old(certCacheEntry).Some?
        && call.looked < old(certCacheEntry).value.fetchedAt + old(certCacheEntry).value.ttl
        && config.validate(old(cachedCert).value, call.checked)
        && old(cachedCert).value.leaf.Some?
        && old(cachedCert).value.leaf.value.notAfter > call.measured + config.refreshThreshold
    {
      if cachedCert.Some? && certCacheEntry.Some? && certCacheEntry.value.IsFreshAt(call.looked) {
        if config.validate(cachedCert.value, call.checked) {
          if ExpiringWithin(cachedCert.value, call.measured, config.refreshThreshold) {
            cachedCert := None;
          } else {
            hits := hits + 1;
            return Served(cachedCert, false);
          }
        } else {
          cachedCert := None;
        }
      }
      misses := misses + 1;
      var cert, _ := FetchCertificateWithRetry(call.replies);
      if cert.None? {
        return Unavailable;
      }
      if cachedCert.Some? && cachedCert.value.leaf.None? {
        return Panicked;
      }
      cachedCert := cert.value;
      certCacheEntry := Some(Entry(call.stored, config.ttl));
      return Served(cert.value, true);
    }
  }
}
