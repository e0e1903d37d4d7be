/** The source adapter under concurrent callers: a read-locked look, then a
    write lock, a second look, and only then the provider. Every step is what
    happens between two lock operations or waits. */
module SourceAdapter {
  import opened Common
  import opened CacheEntry

  /** The adapter caches one SVID and one bundle, under one lock and one TTL. */
  datatype What = Svid | Bundle

  /** A cached value, by the provider fetch it came from. */
  datatype Cached = Cached(fetch: nat, entry: Entry)

  datatype Pc =
    | Calling
    | WaitingForLock
    | Locked
    | Fetching(since: Time)
    | Returned(fetch: nat, at: Time)
    | Failed

  /** A call; `domain` is the trust domain a bundle is asked for. */
  datatype Caller = Caller(what: What, domain: string, pc: Pc)

  /** A successful fetch: by whom, when it began and was stored, under which TTL,
      and how many invalidations preceded it. */
  datatype Fetch = Fetch(caller: nat, what: What, domain: string, startedAt: Time, storedAt: Time, ttl: Time,
                         epoch: nat)

  datatype System = System(now: Time, ttl: Time, svid: Option<Cached>, bundle: Option<Cached>, holder: Option<nat>,
                           callers: seq<Caller>, fetches: seq<Fetch>, epoch: nat) {
    function Cell(what: What): Option<Cached> {
      if what == Svid then svid else bundle
    }

    predicate Fresh(what: What) {
      Cell(what).Some? && Cell(what).value.entry.IsFreshAt(now)
    }
  }

  function Init(ttl: Time): System {
    System(0, ttl, None, None, None, [], [], 0)
  }

  datatype Step =
    | Tick(elapsed: nat)
    | Call(what: What, domain: string)
    | FastPath(c: nat)
    | Lock(c: nat)
    | Recheck(c: nat)
    | ProviderFails(c: nat)
    | ProviderAnswers(c: nat)
    | InvalidateCache
    | SetCacheTtl(ttl: Time)

  predicate Enabled(s: System, step: Step) {
    match step
    case Tick(_) => true
    case Call(_, _) => true
    case InvalidateCache => s.holder.None?
    case SetCacheTtl(_) => s.holder.None?
    case FastPath(c) => c < |s.callers| && s.callers[c].pc.Calling? && s.holder.None?
    case Lock(c) => c < |s.callers| && s.callers[c].pc.WaitingForLock? && s.holder.None?
    case Recheck(c) => c < |s.callers| && s.callers[c].pc.Locked?
    case ProviderFails(c) => c < |s.callers| && s.callers[c].pc.Fetching?
    case ProviderAnswers(c) => c < |s.callers| && s.callers[c].pc.Fetching?
  }

  function Moved(s: System, c: nat, pc: Pc): System
    requires c < |s.callers|
  {
    s.(callers := s.callers[c := s.callers[c].(pc := pc)])
  }

  function Cleared(s: System): System {
    s.(svid := None, bundle := None, epoch := s.epoch + 1)
  }

  function Do(s: System, step: Step): System
    requires Enabled(s, step)
  {
    match step
    case Tick(d) => s.(now := s.now + d)
    case Call(what, domain) => s.(callers := s.callers + [Caller(what, domain, Calling)])
    case FastPath(c) =>
      var what := s.callers[c].what;
      Moved(s, c, if s.Fresh(what) then Returned(s.Cell(what).value.fetch, s.now) else WaitingForLock)
    case Lock(c) => Moved(s, c, Locked).(holder := Some(c))
    case Recheck(c) =>
      var what := s.callers[c].what;
      if s.Fresh(what) then Moved(s, c, Returned(s.Cell(what).value.fetch, s.now)).(holder := None)
      else Moved(s, c, Fetching(s.now))
    case ProviderFails(c) => Moved(s, c, Failed).(holder := None)
    case ProviderAnswers(c) =>
      var caller := s.callers[c];
      var cached := Some(Cached(|s.fetches|, Entry(s.now, s.ttl)));
      var t := Moved(s, c, Returned(|s.fetches|, s.now)).(
        holder := None,
        fetches := s.fetches + [Fetch(c, caller.what, caller.domain, caller.pc.since, s.now, s.ttl, s.epoch)]);
      if caller.what == Svid then t.(svid := cached) else t.(bundle := cached)
    case InvalidateCache => Cleared(s)
    case SetCacheTtl(ttl) => if ttl == 0 then Cleared(s).(ttl := ttl) else s.(ttl := ttl)
  }

  // ---- Invariant -----------------------------------------------------------

  /** A cell holds the latest fetch of its kind since the last invalidation, and
      is empty when there is none. */
  ghost predicate CellCurrent(s: System, what: What) {
    match s.Cell(what)
    case None => forall f :: 0 <= f < |s.fetches| && s.fetches[f].what == what ==> s.fetches[f].epoch < s.epoch
    case Some(cached) =>
      && cached.fetch < |s.fetches|
      && var fetch := s.fetches[cached.fetch];
         && fetch.what == what && fetch.epoch == s.epoch
         && cached.entry == Entry(fetch.storedAt, fetch.ttl)
         && forall f :: cached.fetch < f < |s.fetches| ==> s.fetches[f].what != what
  }

  /** Only the holder is between Lock and its return, and what it is fetching was
      stale when it began. */
  ghost predicate CallerFits(s: System, c: nat)
    requires c < |s.callers|
  {
    match s.callers[c].pc
    case Locked => s.holder == Some(c)
    case Fetching(since) =>
      && s.holder == Some(c) && since <= s.now
      && (s.Cell(s.callers[c].what).Some? ==> s.Cell(s.callers[c].what).value.entry.ExpiresAt() <= since)
    case Returned(f, at) =>
      && f < |s.fetches|
      && s.fetches[f].what == s.callers[c].what
      && s.fetches[f].storedAt <= at <= s.now
      && (s.fetches[f].caller == c || at < s.fetches[f].storedAt + s.fetches[f].ttl)
    case _ => true
  }

  ghost predicate FetchFits(s: System, f: nat)
    requires f < |s.fetches|
  {
    var fetch := s.fetches[f];
    && fetch.startedAt <= fetch.storedAt <= s.now && fetch.epoch <= s.epoch
    && fetch.caller < |s.callers| && s.callers[fetch.caller].domain == fetch.domain
    && s.callers[fetch.caller].what == fetch.what
  }

  /** Consecutive fetches of one kind with no invalidation between them. */
  ghost predicate Successive(fetches: seq<Fetch>, f: nat, g: nat) {
    && f < g < |fetches|
    && fetches[f].what == fetches[g].what && fetches[f].epoch == fetches[g].epoch
    && forall h :: f < h < g ==> fetches[h].what != fetches[f].what
  }

  ghost predicate Spaced(fetches: seq<Fetch>) {
    forall f: nat, g: nat :: Successive(fetches, f, g) ==> fetches[f].storedAt + fetches[f].ttl <= fetches[g].startedAt
  }

  ghost predicate UncachedAtZero(s: System) {
    s.ttl == 0 ==> forall w: What :: s.Cell(w).Some? ==> s.Cell(w).value.entry.ttl == 0
  }

  ghost predicate Invariant(s: System) {
    && CellCurrent(s, Svid) && CellCurrent(s, Bundle)
    && (forall c: nat :: c < |s.callers| ==> CallerFits(s, c))
    && (forall f: nat :: f < |s.fetches| ==> FetchFits(s, f))
    && Spaced(s.fetches) && UncachedAtZero(s)
  }

  lemma StepKeepsCell(s: System, step: Step, what: What)
    requires Invariant(s) && Enabled(s, step)
    ensures CellCurrent(Do(s, step), what)
  {
    assert CellCurrent(s, what);
    if step.InvalidateCache? || (step.SetCacheTtl? && step.ttl == 0) {
      forall f: nat | f < |s.fetches| ensures s.fetches[f].epoch < Do(s, step).epoch {
        assert FetchFits(s, f);
      }
    }
  }

  predicate ByCaller(step: Step) {
    step.FastPath? || step.Lock? || step.Recheck? || step.ProviderFails? || step.ProviderAnswers?
  }

  lemma MoverFits(s: System, step: Step)
    requires Invariant(s) && Enabled(s, step) && ByCaller(step)
    ensures CallerFits(Do(s, step), step.c)
  {
    var what := s.callers[step.c].what;
    assert CallerFits(s, step.c) && CellCurrent(s, what);
    if (step.FastPath? || step.Recheck?) && s.Fresh(what) {
      assert FetchFits(s, s.Cell(what).value.fetch);
    }
  }

  lemma StepKeepsCaller(s: System, step: Step, c: nat)
    requires Invariant(s) && Enabled(s, step) && c < |Do(s, step).callers|
    ensures CallerFits(Do(s, step), c)
  {
    if ByCaller(step) && step.c == c {
      MoverFits(s, step);
    } else {
      assert c < |s.callers| ==> CallerFits(s, c);
      assert ByCaller(step) ==> CallerFits(s, step.c);
    }
  }

  lemma StepKeepsFetch(s: System, step: Step, f: nat)
    requires Invariant(s) && Enabled(s, step) && f < |Do(s, step).fetches|
    ensures FetchFits(Do(s, step), f)
  {
    assert f < |s.fetches| ==> FetchFits(s, f);
    assert step.ProviderAnswers? ==> CallerFits(s, step.c);
  }

  lemma StepKeepsSpaced(s: System, step: Step)
    requires Invariant(s) && Enabled(s, step)
    ensures Spaced(Do(s, step).fetches)
  {
    if step.ProviderAnswers? {
      var t, n, what := Do(s, step), |s.fetches|, s.callers[step.c].what;
      assert CallerFits(s, step.c) && CellCurrent(s, what);
      forall f: nat, g: nat | Successive(t.fetches, f, g)
        ensures t.fetches[f].storedAt + t.fetches[f].ttl <= t.fetches[g].startedAt
      {
        assert forall h :: f < h < g ==> t.fetches[h] == s.fetches[h];
        if g < n {
          assert Successive(s.fetches, f, g);
        } else {
          assert s.Cell(what).Some? && s.Cell(what).value.fetch == f;
        }
      }
    }
  }

  lemma StepKeepsInvariant(s: System, step: Step)
    requires Invariant(s) && Enabled(s, step)
    ensures Invariant(Do(s, step))
  {
    var t := Do(s, step);
    StepKeepsCell(s, step, Svid);
    StepKeepsCell(s, step, Bundle);
    StepKeepsSpaced(s, step);
    forall c: nat | c < |t.callers| ensures CallerFits(t, c) {
      StepKeepsCaller(s, step, c);
    }
    forall f: nat | f < |t.fetches| ensures FetchFits(t, f) {
      StepKeepsFetch(s, step, f);
    }
  }

  ghost predicate ValidRun(s: System, run: seq<Step>)
    decreases |run|
  {
    run != [] ==> Enabled(s, run[0]) && ValidRun(Do(s, run[0]), run[1..])
  }

  ghost function After(s: System, run: seq<Step>): System
    requires ValidRun(s, run)
    decreases |run|
  {
    if run == [] then s else After(Do(s, run[0]), run[1..])
  }

  lemma {:induction false} RunKeepsInvariant(s: System, run: seq<Step>)
    requires Invariant(s) && ValidRun(s, run)
    ensures Invariant(After(s, run))
    decreases |run|
  {
    if run != [] {
      StepKeepsInvariant(s, run[0]);
      RunKeepsInvariant(Do(s, run[0]), run[1..]);
    }
  }

  // ---- What the invariant gives ------------------------------------------------

  /** Single flight: with no invalidation between them, one fetch begins only
      when the previous value of its kind has lived out its TTL, however many
      callers there are. */
  lemma FetchesAreSpaced(ttl: Time, run: seq<Step>, f: nat, g: nat)
    requires ValidRun(Init(ttl), run)
    requires Successive(After(Init(ttl), run).fetches, f, g)
    ensures var fetches := After(Init(ttl), run).fetches;
      fetches[f].storedAt + fetches[f].ttl <= fetches[g].startedAt <= fetches[g].storedAt
  {
    RunKeepsInvariant(Init(ttl), run);
    assert FetchFits(After(Init(ttl), run), g);
  }

  /** Every returned value was fetched by this very call or stored less than one
      TTL before the return, and is of the kind asked for. */
  lemma ReturnedValuesAreCurrent(ttl: Time, run: seq<Step>, c: nat)
    requires ValidRun(Init(ttl), run)
    requires c < |After(Init(ttl), run).callers| && After(Init(ttl), run).callers[c].pc.Returned?
    ensures var t := After(Init(ttl), run); var pc := t.callers[c].pc;
      && pc.fetch < |t.fetches|
      && var fetch := t.fetches[pc.fetch];
         && fetch.what == t.callers[c].what && fetch.storedAt <= pc.at
         && (fetch.caller == c || pc.at < fetch.storedAt + fetch.ttl)
  {
    RunKeepsInvariant(Init(ttl), run);
    assert CallerFits(After(Init(ttl), run), c);
  }

  /** While the TTL is zero no call is answered from the cache. */
  lemma ZeroTtlReachesProvider(ttl: Time, run: seq<Step>, step: Step, c: nat)
    requires ValidRun(Init(ttl), run) && After(Init(ttl), run).ttl == 0
    requires var s := After(Init(ttl), run);
      && Enabled(s, step) && c < |s.callers|
      && !s.callers[c].pc.Returned? && Do(s, step).callers[c].pc.Returned?
    ensures step == ProviderAnswers(c)
  {
    RunKeepsInvariant(Init(ttl), run);
    var s := After(Init(ttl), run);
    forall w: What ensures !s.Fresh(w) {
      assert CellCurrent(s, w);
      assert s.Cell(w).Some? ==> FetchFits(s, s.Cell(w).value.fetch);
    }
  }

  /** The write lock is held exactly by the caller that is between taking it and its
      answer or failure. */
  ghost predicate LockIsHeld(s: System) {
    && (s.holder.Some? ==> s.holder.value < |s.callers|)
    && forall c: nat :: c < |s.callers| ==>
         (s.holder == Some(c) <==> s.callers[c].pc.Locked? || s.callers[c].pc.Fetching?)
  }

  lemma {:induction false} StepKeepsLock(s: System, step: Step)
    requires LockIsHeld(s) && Enabled(s, step)
    ensures LockIsHeld(Do(s, step))
  {
    forall c: nat | c < |Do(s, step).callers|
      ensures Do(s, step).holder == Some(c) <==>
              Do(s, step).callers[c].pc.Locked? || Do(s, step).callers[c].pc.Fetching?
    {
      assert c < |s.callers| ==> (s.holder == Some(c) <==> s.callers[c].pc.Locked? || s.callers[c].pc.Fetching?);
    }
  }

  /** So every path releases it: whoever has been answered or has failed holds nothing,
      and the lock is free unless somebody is at work under it. */
  lemma {:induction false} LockIsReleased(s: System, run: seq<Step>)
    requires LockIsHeld(s) && ValidRun(s, run)
    ensures LockIsHeld(After(s, run))
    decreases |run|
  {
    if run != [] {
      StepKeepsLock(s, run[0]);
      LockIsReleased(Do(s, run[0]), run[1..]);
    }
  }

  // ---- When a caller is answered without asking the provider -----------------------

  /** `f` is the latest fetch of its kind, nothing has been invalidated since, and its
      time has not run out. */
  ghost predicate Young(s: System, what: What, f: nat) {
    && f < |s.fetches| && s.fetches[f].what == what && s.fetches[f].epoch == s.epoch
    && (forall g :: f < g < |s.fetches| ==> s.fetches[g].what != what)
    && s.now < s.fetches[f].storedAt + s.fetches[f].ttl
  }

  lemma FreshIffYoung(s: System, what: What)
    requires Invariant(s)
    ensures s.Fresh(what) <==> exists f: nat :: Young(s, what, f)
    ensures s.Fresh(what) ==> Young(s, what, s.Cell(what).value.fetch)
  {
    assert CellCurrent(s, what);
    if f: nat :| Young(s, what, f) {
      assert s.Cell(what).Some? && s.Cell(what).value.fetch == f;
    } else if s.Fresh(what) {
      assert Young(s, what, s.Cell(what).value.fetch);
    }
  }

  /** Either look answers a caller if and only if there is a young fetch of its kind, and
      with just that one; otherwise the first look sends it to the lock and the second
      to the provider. Whatever the provider then gives is the answer. */
  lemma LooksAnswerIff(s: System, step: Step, c: nat)
    requires Invariant(s) && Enabled(s, step) && (step == FastPath(c) || step == Recheck(c))
    ensures var what := s.callers[c].what; var pc := Do(s, step).callers[c].pc;
      && (pc.Returned? <==> exists f: nat :: Young(s, what, f))
      && (forall f: nat :: Young(s, what, f) ==> pc == Returned(f, s.now))
      && ((forall f: nat :: !Young(s, what, f)) ==>
            pc == if step == FastPath(c) then WaitingForLock else Fetching(s.now))
      && Do(s, step).fetches == s.fetches
  {
    var what := s.callers[c].what;
    FreshIffYoung(s, what);
    assert forall f: nat, g: nat :: Young(s, what, f) && Young(s, what, g) ==> f == g;
  }

  /** What a provider answers is the young fetch from then on, and the caller's answer. */
  lemma AnswerIsYoung(s: System, c: nat)
    requires Invariant(s) && Enabled(s, ProviderAnswers(c))
    ensures var t := Do(s, ProviderAnswers(c)); var f := |s.fetches|;
      && t.callers[c].pc == Returned(f, s.now) && t.fetches[..f] == s.fetches && |t.fetches| == f + 1
      && t.fetches[f].storedAt == s.now && t.fetches[f].ttl == s.ttl && t.fetches[f].caller == c
      && (s.ttl > 0 ==> Young(t, s.callers[c].what, f))
  {
  }

  predicate Clears(step: Step) {
    step.InvalidateCache? || step == SetCacheTtl(0)
  }

  ghost function ClearsIn(run: seq<Step>): nat {
    if run == [] then 0 else (if Clears(run[0]) then 1 else 0) + ClearsIn(run[1..])
  }

  /** The epoch counts the invalidations, a TTL of zero being one, and nothing else. */
  lemma {:induction false} EpochCountsClears(s: System, run: seq<Step>)
    requires ValidRun(s, run)
    ensures After(s, run).epoch == s.epoch + ClearsIn(run)
    decreases |run|
  {
    if run != [] {
      EpochCountsClears(Do(s, run[0]), run[1..]);
    }
  }

  lemma {:induction false} AfterAppend(s: System, run: seq<Step>, step: Step)
    requires ValidRun(s, run) && Enabled(After(s, run), step)
    ensures ValidRun(s, run + [step]) && After(s, run + [step]) == Do(After(s, run), step)
    decreases |run|
  {
    if run == [] {
      assert [step][1..] == [];
    } else {
      AfterAppend(Do(s, run[0]), run[1..], step);
      assert (run + [step])[1..] == run[1..] + [step];
    }
  }

  // ---- Whose bundle a caller gets ------------------------------------------------

  /** The step answers caller `c`. */
  predicate Answers(s: System, step: Step, c: nat)
    requires Enabled(s, step)
  {
    c < |s.callers| && !s.callers[c].pc.Returned? && Do(s, step).callers[c].pc.Returned?
  }

  /** A bundle is labelled with the domain its fetch was for. */
  ghost predicate Agrees(s: System, c: nat)
    requires c < |s.callers| && s.callers[c].pc.Returned?
  {
    s.callers[c].pc.fetch < |s.fetches| && s.fetches[s.callers[c].pc.fetch].domain == s.callers[c].domain
  }

  /** The cached bundle, if it is fresh, was fetched for `domain`. */
  ghost predicate CacheSuits(s: System, domain: string) {
    s.Fresh(Bundle) ==>
      s.bundle.value.fetch < |s.fetches| && s.fetches[s.bundle.value.fetch].domain == domain
  }

  /** The one bundle cell serves every trust domain: a caller gets its own domain's
      bundle if and only if the cell is stale or holds that domain's when it looks. */
  lemma StepAgreesIff(s: System, step: Step, c: nat)
    requires Invariant(s) && Enabled(s, step) && Answers(s, step, c) && s.callers[c].what == Bundle
    ensures Agrees(Do(s, step), c) <==> CacheSuits(s, s.callers[c].domain)
  {
    assert CallerFits(s, c) && CellCurrent(s, Bundle);
  }

  lemma {:induction false} StepKeepsAnswer(s: System, step: Step, c: nat)
    requires Invariant(s) && Enabled(s, step) && c < |s.callers| && s.callers[c].pc.Returned?
    ensures c < |Do(s, step).callers| && Do(s, step).callers[c] == s.callers[c]
    ensures Agrees(Do(s, step), c) <==> Agrees(s, c)
  {
    assert CallerFits(s, c);
  }

  lemma {:induction false} AnswersStay(s: System, run: seq<Step>, c: nat)
    requires Invariant(s) && ValidRun(s, run) && c < |s.callers| && s.callers[c].pc.Returned?
    ensures c < |After(s, run).callers| && After(s, run).callers[c] == s.callers[c]
    ensures Agrees(After(s, run), c) <==> Agrees(s, c)
    decreases |run|
  {
    if run != [] {
      StepKeepsAnswer(s, run[0], c);
      StepKeepsInvariant(s, run[0]);
      AnswersStay(Do(s, run[0]), run[1..], c);
    }
  }

  lemma {:induction false} RunSplits(s: System, run: seq<Step>, i: nat)
    requires ValidRun(s, run) && i < |run|
    ensures ValidRun(s, run[..i]) && Enabled(After(s, run[..i]), run[i])
    ensures ValidRun(Do(After(s, run[..i]), run[i]), run[i + 1..])
    ensures After(s, run) == After(Do(After(s, run[..i]), run[i]), run[i + 1..])
    decreases i
  {
    if i > 0 {
      RunSplits(Do(s, run[0]), run[1..], i - 1);
      assert run[..i][1..] == run[1..][..i - 1] && run[1..][i..] == run[i + 1..] && run[1..][i - 1] == run[i];
    }
  }

  /** In every run: what caller `c` was given by the `i`-th step is labelled with its
      domain if and only if the cell suited it at that step. */
  lemma BundleAgreesIff(ttl: Time, run: seq<Step>, i: nat, c: nat)
    requires ValidRun(Init(ttl), run) && i < |run|
    ensures ValidRun(Init(ttl), run[..i]) && Enabled(After(Init(ttl), run[..i]), run[i])
    ensures var s, t := After(Init(ttl), run[..i]), After(Init(ttl), run);
      Answers(s, run[i], c) && s.callers[c].what == Bundle ==>
      && c < |t.callers| && t.callers[c].pc.Returned?
      && (Agrees(t, c) <==> CacheSuits(s, s.callers[c].domain))
  {
    RunSplits(Init(ttl), run, i);
    var s := After(Init(ttl), run[..i]);
    RunKeepsInvariant(Init(ttl), run[..i]);
    if Answers(s, run[i], c) && s.callers[c].what == Bundle {
      StepAgreesIff(s, run[i], c);
      StepKeepsInvariant(s, run[i]);
      AnswersStay(Do(s, run[i]), run[i + 1..], c);
    }
  }

  /** So it always is when all bundle callers ask for one domain. */
  lemma SingleDomainBundlesAgree(ttl: Time, run: seq<Step>, c: nat, domain: string)
    requires ValidRun(Init(ttl), run)
    requires var t := After(Init(ttl), run);
      && c < |t.callers| && t.callers[c].what == Bundle && t.callers[c].pc.Returned?
      && forall d :: 0 <= d < |t.callers| && t.callers[d].what == Bundle ==> t.callers[d].domain == domain
    ensures Agrees(After(Init(ttl), run), c)
  {
    RunKeepsInvariant(Init(ttl), run);
    var t := After(Init(ttl), run);
    assert CallerFits(t, c);
    assert FetchFits(t, t.callers[c].pc.fetch);
  }

  /** With a positive TTL a second domain is answered with the first one's bundle. */
  lemma SecondDomainGetsFirstBundle(ttl: Time, first: string, second: string) returns (run: seq<Step>)
    requires ttl > 0
    ensures ValidRun(Init(ttl), run)
    ensures var t := After(Init(ttl), run);
      && |t.callers| == 2 && t.callers[1].domain == second && t.callers[1].pc == Returned(0, 0)
      && |t.fetches| == 1 && t.fetches[0].domain == first
  {
    run := [];
    var steps := [Call(Bundle, first), FastPath(0), Lock(0), Recheck(0), ProviderAnswers(0),
                  Call(Bundle, second), FastPath(1)];
    var s := Init(ttl);
    for i := 0 to |steps|
      invariant ValidRun(Init(ttl), run) && After(Init(ttl), run) == s
      invariant i == 0 ==> s == Init(ttl)
      invariant s.now == 0 && s.ttl == ttl && (i < 3 || i > 4 ==> s.holder.None?)
      invariant i >= 1 ==> |s.callers| >= 1 && s.callers[0].what == Bundle && s.callers[0].domain == first
      invariant 1 <= i <= 5 ==> |s.callers| == 1
      invariant 0 <= i <= 4 ==> s.bundle.None? && s.fetches == []
      invariant i == 1 ==> s.callers[0].pc == Calling
      invariant i == 2 ==> s.callers[0].pc == WaitingForLock
      invariant i == 3 ==> s.callers[0].pc == Locked
      invariant i == 4 ==> s.callers[0].pc.Fetching?
      invariant i >= 5 ==> s.bundle == Some(Cached(0, Entry(0, ttl)))
      invariant i >= 5 ==> |s.fetches| == 1 && s.fetches[0].domain == first
      invariant i >= 6 ==> |s.callers| == 2 && s.callers[1].what == Bundle && s.callers[1].domain == second
      invariant i == 6 ==> s.callers[1].pc == Calling
      invariant i == 7 ==> s.callers[1].pc == Returned(0, 0)
    {
      AfterAppend(Init(ttl), run, steps[i]);
      run, s := run + [steps[i]], Do(s, steps[i]);
    }
  }
}
