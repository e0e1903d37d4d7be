/** Trust bundles: validation and the merge of two bundles. Certificates are
    pointers in the program, so each may be nil. */
module TrustBundle {
  import opened Common
  import opened Dedup

  datatype RawCert = RawCert(serial: int, publicKey: string, raw: string, isCA: bool, notBefore: Time, notAfter: Time)

  /** `None` stands for a nil wrapper or a wrapper around nil. */
  datatype Bundle = Bundle(certificates: seq<Option<RawCert>>)

  datatype BundleError =
    | NilOther
    | NilCertificate
    | NotCA
    | Empty
    | NilAt(index: nat)
    | DuplicateAt(index: nat)
    | NotCAAt(index: nat)
    | NotYetValidAt(index: nat)
    | ExpiredAt(index: nat)

  function PublicKey(): RawCert -> string {
    (c: RawCert) => c.publicKey
  }

  function Wrap(certs: seq<RawCert>): seq<Option<RawCert>> {
    seq(|certs|, i requires 0 <= i < |certs| => Some(certs[i]))
  }

  lemma {:induction false} NonNilWrap(certs: seq<RawCert>)
    ensures NonNil(Wrap(certs)) == certs
  {
    if certs != [] {
      var n := |certs| - 1;
      NonNilWrap(certs[..n]);
      assert Wrap(certs)[..n] == Wrap(certs[..n]);
    }
  }

  // ---- Validation -------------------------------------------------------------

  predicate Current(c: RawCert, now: Time) {
    c.notBefore <= now <= c.notAfter
  }

  /** A non-empty list of distinct, current CA certificates. */
  ghost predicate ValidAt(b: Bundle, now: Time) {
    && b.certificates != []
    && (forall i :: 0 <= i < |b.certificates| ==>
          b.certificates[i].Some? && b.certificates[i].value.isCA && Current(b.certificates[i].value, now))
    && (forall i, j :: 0 <= i < j < |b.certificates| ==>
          b.certificates[i].value.publicKey != b.certificates[j].value.publicKey)
  }

  /** What is wrong with the certificate at `i`, in the order it is looked for. */
  ghost function Defect(certs: seq<Option<RawCert>>, i: nat, now: Time): Option<BundleError>
    requires i < |certs|
  {
    var c := certs[i];
    if c.None? then Some(NilAt(i))
    else if exists j :: 0 <= j < i && certs[j].Some? && certs[j].value.publicKey == c.value.publicKey then
      Some(DuplicateAt(i))
    else if !c.value.isCA then Some(NotCAAt(i))
    else if now < c.value.notBefore then Some(NotYetValidAt(i))
    else if now > c.value.notAfter then Some(ExpiredAt(i))
    else None
  }

  /** The first defect at or after `from`. */
  ghost function FirstDefect(certs: seq<Option<RawCert>>, from: nat, now: Time): Option<BundleError>
    requires from <= |certs|
    decreases |certs| - from
  {
    if from == |certs| then None
    else if Defect(certs, from, now).Some? then Defect(certs, from, now)
    else FirstDefect(certs, from + 1, now)
  }

  ghost function Verdict(b: Bundle, now: Time): Option<BundleError> {
    if NonNil(b.certificates) == [] then Some(Empty) else FirstDefect(b.certificates, 0, now)
  }

  lemma {:induction false} NoDefectIff(certs: seq<Option<RawCert>>, from: nat, now: Time)
    requires from <= |certs|
    ensures FirstDefect(certs, from, now).None? <==>
            forall i: nat :: from <= i < |certs| ==> Defect(certs, i, now).None?
    decreases |certs| - from
  {
    if from < |certs| {
      NoDefectIff(certs, from + 1, now);
    }
  }

  /** Validation passes exactly on valid bundles. */
  lemma VerdictIff(b: Bundle, now: Time)
    ensures Verdict(b, now).None? <==> ValidAt(b, now)
  {
    var certs := b.certificates;
    NoDefectIff(certs, 0, now);
    NonNilEmptyIff(certs);
    if NonNil(certs) != [] && forall i: nat :: i < |certs| ==> Defect(certs, i, now).None? {
      forall i: nat | i < |certs|
        ensures certs[i].Some? && certs[i].value.isCA && Current(certs[i].value, now)
      {
        assert Defect(certs, i, now).None?;
      }
      forall i: nat, j: nat | i < j < |certs| ensures certs[i].value.publicKey != certs[j].value.publicKey {
        assert Defect(certs, j, now).None?;
      }
    }
  }

  /** The certificates before `n` are current CAs with different keys. */
  ghost predicate GoodUpTo(certs: seq<Option<RawCert>>, n: nat, now: Time) {
    && n <= |certs|
    && (forall i :: 0 <= i < n ==> certs[i].Some? && certs[i].value.isCA && Current(certs[i].value, now))
    && (forall i, j :: 0 <= i < j < n ==> certs[i].value.publicKey != certs[j].value.publicKey)
  }

  /** The key at `i` is used before. */
  ghost predicate Repeats(certs: seq<Option<RawCert>>, i: nat)
    requires i < |certs| && certs[i].Some?
  {
    exists j :: 0 <= j < i && certs[j].Some? && certs[j].value.publicKey == certs[i].value.publicKey
  }

  /** What an error of the validation says: the certificate at the index is the first
      bad one, and this is the first thing wrong with it, in the order nil, repeated
      key, no CA, not yet valid, expired. */
  ghost predicate Says(err: BundleError, certs: seq<Option<RawCert>>, now: Time) {
    match err
    case Empty => forall i :: 0 <= i < |certs| ==> certs[i].None?
    case NilAt(i) => i < |certs| && GoodUpTo(certs, i, now) && certs[i].None?
    case DuplicateAt(i) => i < |certs| && GoodUpTo(certs, i, now) && certs[i].Some? && Repeats(certs, i)
    case NotCAAt(i) =>
      i < |certs| && GoodUpTo(certs, i, now) && certs[i].Some? && !Repeats(certs, i) && !certs[i].value.isCA
    case NotYetValidAt(i) =>
      && i < |certs| && GoodUpTo(certs, i, now) && certs[i].Some? && !Repeats(certs, i) && certs[i].value.isCA
      && now < certs[i].value.notBefore
    case ExpiredAt(i) =>
      && i < |certs| && GoodUpTo(certs, i, now) && certs[i].Some? && !Repeats(certs, i) && certs[i].value.isCA
      && certs[i].value.notBefore <= now && certs[i].value.notAfter < now
    case _ => false
  }

  lemma {:induction false} FirstDefectSays(certs: seq<Option<RawCert>>, from: nat, now: Time)
    requires GoodUpTo(certs, from, now) && FirstDefect(certs, from, now).Some?
    ensures Says(FirstDefect(certs, from, now).value, certs, now) && FirstDefect(certs, from, now) != Some(Empty)
    decreases |certs| - from
  {
    if Defect(certs, from, now).None? {
      assert GoodUpTo(certs, from + 1, now);
      FirstDefectSays(certs, from + 1, now);
    }
  }

  /** Every error of the validation says what is wrong, and no other one would. */
  lemma VerdictSays(b: Bundle, now: Time, err: BundleError)
    ensures Verdict(b, now) == Some(err) <==>
            Says(err, b.certificates, now) && (err != Empty ==> NonNil(b.certificates) != [])
  {
    NonNilEmptyIff(b.certificates);
    VerdictIff(b, now);
    if NonNil(b.certificates) != [] && Verdict(b, now).Some? {
      FirstDefectSays(b.certificates, 0, now);
    }
  }

  method Validate(b: Bundle, now: Time) returns (err: Option<BundleError>)
    ensures err == Verdict(b, now)
    ensures err.None? <==> ValidAt(b, now)
    ensures err.Some? ==> Says(err.value, b.certificates, now)
  {
    VerdictIff(b, now);
    if Verdict(b, now).Some? {
      VerdictSays(b, now, Verdict(b, now).value);
    }
    var certs := b.certificates;
    if NonNil(certs) == [] {
      return Some(Empty);
    }
    var seen: set<string> := {};
    for i := 0 to |certs|
      invariant FirstDefect(certs, 0, now) == FirstDefect(certs, i, now)
      invariant forall k :: k in seen <==> exists j :: 0 <= j < i && certs[j].Some? && certs[j].value.publicKey == k
    {
      if certs[i].None? {
        return Some(NilAt(i));
      }
      var cert := certs[i].value;
      if cert.publicKey in seen {
        return Some(DuplicateAt(i));
      }
      seen := seen + {cert.publicKey};
      if !cert.isCA {
        return Some(NotCAAt(i));
      }
      if now < cert.notBefore {
        return Some(NotYetValidAt(i));
      }
      if now > cert.notAfter {
        return Some(ExpiredAt(i));
      }
    }
    return None;
  }

  // ---- Construction and merge ---------------------------------------------------

  /** The first certificate that cannot be wrapped as a CA. */
  ghost function WrapError(raw: seq<Option<RawCert>>): Option<BundleError> {
    if raw == [] then None
    else if raw[0].None? then Some(NilCertificate)
    else if !raw[0].value.isCA then Some(NotCA)
    else WrapError(raw[1..])
  }

  ghost function Created(raw: seq<Option<RawCert>>, now: Time): Result<Bundle, BundleError> {
    if WrapError(raw).Some? then Err(WrapError(raw).value)
    else if Verdict(Bundle(raw), now).Some? then Err(Verdict(Bundle(raw), now).value)
    else Ok(Bundle(raw))
  }

  lemma {:induction false} WrapErrorIff(raw: seq<Option<RawCert>>)
    ensures WrapError(raw).None? <==> forall i :: 0 <= i < |raw| ==> raw[i].Some? && raw[i].value.isCA
  {
    if raw != [] {
      WrapErrorIff(raw[1..]);
      assert forall i :: 0 < i < |raw| ==> raw[i] == raw[1..][i - 1];
    }
  }

  lemma CreatedIff(raw: seq<Option<RawCert>>, now: Time)
    ensures Created(raw, now).Ok? <==> ValidAt(Bundle(raw), now)
    ensures Created(raw, now).Ok? ==> Created(raw, now).value == Bundle(raw)
  {
    WrapErrorIff(raw);
    VerdictIff(Bundle(raw), now);
  }

  /** The first entry that cannot be wrapped. */
  ghost predicate FirstUnwrappable(raw: seq<Option<RawCert>>, i: nat) {
    && i < |raw| && (raw[i].None? || !raw[i].value.isCA)
    && forall j :: 0 <= j < i ==> raw[j].Some? && raw[j].value.isCA
  }

  lemma {:induction false} WrapErrorSays(raw: seq<Option<RawCert>>) returns (i: nat)
    requires WrapError(raw).Some?
    ensures FirstUnwrappable(raw, i)
    ensures WrapError(raw) == Some(if raw[i].None? then NilCertificate else NotCA)
  {
    i := 0;
    if raw[0].Some? && raw[0].value.isCA {
      i := WrapErrorSays(raw[1..]);
      assert forall j :: 0 < j < i + 1 ==> raw[j] == raw[1..][j - 1];
      i := i + 1;
    }
  }

  /** Which error a refused construction names: the first entry that is nil or no CA, and
      only if there is none, what validation says. */
  lemma CreatedSays(raw: seq<Option<RawCert>>, now: Time)
    ensures forall i: nat :: FirstUnwrappable(raw, i) ==>
              Created(raw, now) == Err(if raw[i].None? then NilCertificate else NotCA)
    ensures Created(raw, now).Err? && (forall i: nat :: !FirstUnwrappable(raw, i)) ==>
              Says(Created(raw, now).error, raw, now)
  {
    WrapErrorIff(raw);
    if WrapError(raw).Some? {
      var n := WrapErrorSays(raw);
      assert forall i: nat :: FirstUnwrappable(raw, i) ==> i == n;
    } else if Verdict(Bundle(raw), now).Some? {
      VerdictSays(Bundle(raw), now, Verdict(Bundle(raw), now).value);
    }
  }

  /** Without validation every list is accepted as it is. */
  method NewTrustBundleWithValidation(rawCerts: seq<Option<RawCert>>, validate: bool, now: Time)
    returns (r: Result<Bundle, BundleError>)
    ensures r == if validate then Created(rawCerts, now) else Ok(Bundle(rawCerts))
    ensures validate ==> (r.Ok? <==> ValidAt(Bundle(rawCerts), now))
  {
    CreatedIff(rawCerts, now);
    var certs: seq<Option<RawCert>> := [];
    for i := 0 to |rawCerts|
      invariant certs == rawCerts[..i]
      invariant validate ==> WrapError(rawCerts) == WrapError(rawCerts[i..])
    {
      assert rawCerts[i..][1..] == rawCerts[i + 1..];
      if validate {
        if rawCerts[i].None? {
          return Err(NilCertificate);
        }
        if !rawCerts[i].value.isCA {
          return Err(NotCA);
        }
      }
      certs := certs + [rawCerts[i]];
    }
    assert certs == rawCerts;
    if validate {
      var err := Validate(Bundle(certs), now);
      if err.Some? {
        return Err(err.value);
      }
    }
    return Ok(Bundle(certs));
  }

  ghost function MergedCerts(a: Bundle, b: Bundle): seq<RawCert> {
    FirstWins(PublicKey(), NonNil(a.certificates) + NonNil(b.certificates))
  }

  ghost function Merged(a: Bundle, b: Bundle, now: Time): Result<Bundle, BundleError> {
    Created(Wrap(MergedCerts(a, b)), now)
  }

  method MergeBundles(tb: Bundle, other: Option<Bundle>, now: Time) returns (r: Result<Bundle, BundleError>)
    ensures other.None? ==> r == Err(NilOther)
    ensures other.Some? ==> r == Merged(tb, other.value, now)
  {
    if other.None? {
      return Err(NilOther);
    }
    assert [] + NonNil(tb.certificates) == NonNil(tb.certificates);
    var seen, all := CollectFirst(PublicKey(), tb.certificates, [], {}, []);
    seen, all := CollectFirst(PublicKey(), other.value.certificates, NonNil(tb.certificates), seen, all);
    r := NewTrustBundleWithValidation(Wrap(all), true, now);
  }

  // ---- Laws of the merge -----------------------------------------------------------

  lemma MergedOkIff(a: Bundle, b: Bundle, now: Time)
    ensures Merged(a, b, now).Ok? <==>
            MergedCerts(a, b) != [] && forall c :: c in MergedCerts(a, b) ==> c.isCA && Current(c, now)
    ensures Merged(a, b, now).Ok? ==> NonNil(Merged(a, b, now).value.certificates) == MergedCerts(a, b)
  {
    var certs := MergedCerts(a, b);
    CreatedIff(Wrap(certs), now);
    NonNilWrap(certs);
    FirstWinsDistinct(PublicKey(), NonNil(a.certificates) + NonNil(b.certificates));
    assert forall i, j :: 0 <= i < j < |certs| ==> PublicKey()(certs[i]) != PublicKey()(certs[j]);
    if Merged(a, b, now).Ok? {
      forall c | c in certs ensures c.isCA && Current(c, now) {
        var i :| 0 <= i < |certs| && certs[i] == c;
        assert Wrap(certs)[i] == Some(c);
      }
    }
  }

  lemma NoRepeats(certs: seq<RawCert>)
    requires DistinctKeys(PublicKey(), certs)
    ensures forall i: nat :: i < |certs| ==> !Repeats(Wrap(certs), i)
  {
    forall i: nat | i < |certs| ensures !Repeats(Wrap(certs), i) {
      forall j | 0 <= j < i ensures certs[j].publicKey != certs[i].publicKey {
        assert PublicKey()(certs[j]) != PublicKey()(certs[i]);
      }
    }
  }

  /** What a failed merge says of what is left: nothing is, or something is no CA, or
      else which is the first that is not current, and in what way. */
  ghost predicate Blames(err: BundleError, certs: seq<RawCert>, now: Time) {
    match err
    case Empty => certs == []
    case NotCA => exists i :: 0 <= i < |certs| && !certs[i].isCA
    case NotYetValidAt(i) => CasUpTo(certs, i, now) && now < certs[i].notBefore
    case ExpiredAt(i) => CasUpTo(certs, i, now) && certs[i].notBefore <= now && certs[i].notAfter < now
    case _ => false
  }

  /** All are CAs, and those before `n` are current. */
  ghost predicate CasUpTo(certs: seq<RawCert>, n: nat, now: Time) {
    && n < |certs|
    && (forall i :: 0 <= i < |certs| ==> certs[i].isCA)
    && (forall i :: 0 <= i < n ==> Current(certs[i], now))
  }

  lemma {:induction false} SaysBlames(err: BundleError, certs: seq<RawCert>, now: Time)
    requires Says(err, Wrap(certs), now) && DistinctKeys(PublicKey(), certs)
    requires forall i :: 0 <= i < |certs| ==> certs[i].isCA
    ensures Blames(err, certs, now)
  {
    var raw := Wrap(certs);
    NoRepeats(certs);
    assert forall i :: 0 <= i < |certs| ==> raw[i] == Some(certs[i]);
    assert certs != [] ==> raw[0].Some?;
  }

  /** Why a merge fails. */
  lemma MergeFailsBecause(a: Bundle, b: Bundle, now: Time)
    requires Merged(a, b, now).Err?
    ensures Blames(Merged(a, b, now).error, MergedCerts(a, b), now)
  {
    var certs := MergedCerts(a, b);
    CreatedSays(Wrap(certs), now);
    FirstWinsDistinct(PublicKey(), NonNil(a.certificates) + NonNil(b.certificates));
    if i: nat :| FirstUnwrappable(Wrap(certs), i) {
      assert !certs[i].isCA;
    } else {
      WrapErrorIff(Wrap(certs));
      assert forall i :: 0 <= i < |certs| ==> Wrap(certs)[i] == Some(certs[i]);
      NoneUnwrappable(Wrap(certs));
      SaysBlames(Merged(a, b, now).error, certs, now);
    }
  }

  lemma NoneUnwrappable(raw: seq<Option<RawCert>>)
    requires forall i: nat :: !FirstUnwrappable(raw, i)
    ensures forall i :: 0 <= i < |raw| ==> raw[i].Some? && raw[i].value.isCA
  {
    WrapErrorIff(raw);
    if WrapError(raw).Some? {
      var i := WrapErrorSays(raw);
    }
  }

  /** Bundles valid at one instant merge into a bundle valid at that instant. */
  lemma MergeOfValidIsValid(a: Bundle, b: Bundle, now: Time)
    requires ValidAt(a, now) && ValidAt(b, now)
    ensures Merged(a, b, now).Ok? && ValidAt(Merged(a, b, now).value, now)
  {
    var both := NonNil(a.certificates) + NonNil(b.certificates);
    FirstWinsSelects(PublicKey(), both);
    forall c | c in MergedCerts(a, b) ensures c.isCA && Current(c, now) {
      assert c in both;
      NonNilElements(a.certificates, c);
      NonNilElements(b.certificates, c);
    }
    NonNilEmptyIff(a.certificates);
    FirstWinsKeepsKeys(PublicKey(), both, PublicKey()(both[0]));
    MergedOkIff(a, b, now);
    CreatedIff(Wrap(MergedCerts(a, b)), now);
  }

  /** The keys of a merge are those of the two bundles, each once, those of the
      first in front and unchanged. */
  lemma MergeIsLeftBiasedUnion(a: Bundle, b: Bundle, k: string)
    ensures HasKey(PublicKey(), MergedCerts(a, b), k) <==>
            HasKey(PublicKey(), NonNil(a.certificates), k) || HasKey(PublicKey(), NonNil(b.certificates), k)
    ensures DistinctKeys(PublicKey(), MergedCerts(a, b))
    ensures FirstWins(PublicKey(), NonNil(a.certificates)) <= MergedCerts(a, b)
  {
    FirstWinsKeepsKeys(PublicKey(), NonNil(a.certificates) + NonNil(b.certificates), k);
    HasKeyConcat(PublicKey(), NonNil(a.certificates), NonNil(b.certificates), k);
    FirstWinsDistinct(PublicKey(), NonNil(a.certificates) + NonNil(b.certificates));
    FirstWinsPrefix(PublicKey(), NonNil(a.certificates), NonNil(b.certificates));
  }

  /** What is left of a merge stands in the order of the two bundles. */
  lemma MergeKeepsOrder(a: Bundle, b: Bundle) returns (at: seq<nat>)
    ensures Selects(PublicKey(), NonNil(a.certificates) + NonNil(b.certificates), at, MergedCerts(a, b))
  {
    at := FirstWinsPositions(PublicKey(), NonNil(a.certificates) + NonNil(b.certificates));
  }

  lemma {:induction false} WrapNonNil(certs: seq<Option<RawCert>>)
    requires forall i :: 0 <= i < |certs| ==> certs[i].Some?
    ensures Wrap(NonNil(certs)) == certs
  {
    if certs != [] {
      var n := |certs| - 1;
      WrapNonNil(certs[..n]);
      assert certs == certs[..n] + [certs[n]];
      var front := NonNil(certs[..n]);
      assert Wrap(front + [certs[n].value]) == Wrap(front) + [certs[n]];
    }
  }

  lemma ValidHasDistinctKeys(b: Bundle, now: Time)
    requires ValidAt(b, now)
    ensures DistinctKeys(PublicKey(), NonNil(b.certificates))
  {
    var certs := NonNil(b.certificates);
    WrapNonNil(b.certificates);
    forall i, j | 0 <= i < j < |certs| ensures PublicKey()(certs[i]) != PublicKey()(certs[j]) {
      assert b.certificates[i] == Wrap(certs)[i] && b.certificates[j] == Wrap(certs)[j];
    }
  }

  /** Merging a valid bundle with itself gives it back. */
  lemma SelfMergeIsIdentity(b: Bundle, now: Time)
    requires ValidAt(b, now)
    ensures Merged(b, b, now) == Ok(b)
  {
    var certs := NonNil(b.certificates);
    ValidHasDistinctKeys(b, now);
    DistinctIsFixed(PublicKey(), certs);
    RepeatAddsNothing(PublicKey(), certs, certs);
    WrapNonNil(b.certificates);
    CreatedIff(b.certificates, now);
  }

  lemma {:induction false} RepeatAddsNothing<T, K>(key: T -> K, a: seq<T>, b: seq<T>)
    requires forall x :: x in b ==> HasKey(key, a, key(x))
    ensures FirstWins(key, a + b) == FirstWins(key, a)
  {
    if b == [] {
      assert a + b == a;
    } else {
      var front, x := b[..|b| - 1], b[|b| - 1];
      RepeatAddsNothing(key, a, front);
      assert a + b == (a + front) + [x];
      FirstWinsAppend(key, a + front, x);
      HasKeyConcat(key, a, front, key(x));
    }
  }

  ghost function MergedLeft(a: Bundle, b: Bundle, c: Bundle, now: Time): Result<Bundle, BundleError> {
    match Merged(a, b, now) case Err(e) => Err(e) case Ok(ab) => Merged(ab, c, now)
  }

  ghost function MergedRight(a: Bundle, b: Bundle, c: Bundle, now: Time): Result<Bundle, BundleError> {
    match Merged(b, c, now) case Err(e) => Err(e) case Ok(bc) => Merged(a, bc, now)
  }

  /** The two ways to merge three bundles agree, down to the error, when both
      inner merges succeed; if one way succeeds, the other does exactly when its
      inner merge does. */
  lemma MergeAssociative(a: Bundle, b: Bundle, c: Bundle, now: Time)
    ensures Merged(a, b, now).Ok? && Merged(b, c, now).Ok? ==> MergedLeft(a, b, c, now) == MergedRight(a, b, c, now)
    ensures MergedLeft(a, b, c, now).Ok? ==> (MergedRight(a, b, c, now).Ok? <==> Merged(b, c, now).Ok?)
    ensures MergedRight(a, b, c, now).Ok? ==> (MergedLeft(a, b, c, now).Ok? <==> Merged(a, b, now).Ok?)
  {
    if Merged(a, b, now).Ok? && Merged(b, c, now).Ok? {
      MergedOkIff(a, b, now);
      MergedOkIff(b, c, now);
      FirstWinsAssociative(PublicKey(), NonNil(a.certificates), NonNil(b.certificates), NonNil(c.certificates));
    }
  }

  /** What is left of three bundles, in either way of merging. */
  ghost function AllThree(a: Bundle, b: Bundle, c: Bundle): seq<RawCert> {
    FirstWins(PublicKey(), NonNil(a.certificates) + NonNil(b.certificates) + NonNil(c.certificates))
  }

  ghost predicate Sound(certs: seq<RawCert>, now: Time) {
    certs != [] && forall c :: c in certs ==> c.isCA && Current(c, now)
  }

  lemma MergedLeftOkIff(a: Bundle, b: Bundle, c: Bundle, now: Time)
    ensures MergedLeft(a, b, c, now).Ok? <==> Merged(a, b, now).Ok? && Sound(AllThree(a, b, c), now)
  {
    if Merged(a, b, now).Ok? {
      MergedOkIff(a, b, now);
      MergedOkIff(Merged(a, b, now).value, c, now);
      FirstWinsFront(PublicKey(), NonNil(a.certificates) + NonNil(b.certificates), NonNil(c.certificates));
    }
  }

  lemma MergedRightOkIff(a: Bundle, b: Bundle, c: Bundle, now: Time)
    ensures MergedRight(a, b, c, now).Ok? <==> Merged(b, c, now).Ok? && Sound(AllThree(a, b, c), now)
  {
    if Merged(b, c, now).Ok? {
      MergedOkIff(b, c, now);
      MergedOkIff(a, Merged(b, c, now).value, now);
      FirstWinsThree(PublicKey(), NonNil(a.certificates), NonNil(b.certificates), NonNil(c.certificates));
    }
  }

  /** What is left of the first two is a front part of what is left of all three, so
      it is sound with the whole unless there is nothing of it. */
  lemma FrontOfSound(a: Bundle, b: Bundle, c: Bundle, now: Time)
    requires Sound(AllThree(a, b, c), now)
    ensures Merged(a, b, now).Ok? <==> NonNil(a.certificates) + NonNil(b.certificates) != []
  {
    var both := NonNil(a.certificates) + NonNil(b.certificates);
    FirstWinsPrefix(PublicKey(), both, NonNil(c.certificates));
    MergedOkIff(a, b, now);
    if both != [] {
      FirstWinsKeepsKeys(PublicKey(), both, PublicKey()(both[0]));
    }
    forall x | x in MergedCerts(a, b) ensures x in AllThree(a, b, c) {
    }
  }

  /** The two ways agree on success if and only if the deduplicated whole is unsound
      anyway, or the first two hold a certificate exactly when what is left of the
      last two is sound. */
  lemma MergesAgreeIff(a: Bundle, b: Bundle, c: Bundle, now: Time)
    ensures (MergedLeft(a, b, c, now).Ok? <==> MergedRight(a, b, c, now).Ok?) <==>
            (Sound(AllThree(a, b, c), now) ==>
               (NonNil(a.certificates) + NonNil(b.certificates) != [] <==> Sound(MergedCerts(b, c), now)))
  {
    MergedLeftOkIff(a, b, c, now);
    MergedRightOkIff(a, b, c, now);
    MergedOkIff(b, c, now);
    if Sound(AllThree(a, b, c), now) {
      FrontOfSound(a, b, c, now);
    }
  }

  /** Grouping to the left never loses: what succeeds to the right succeeds to the
      left, unless the first two hold nothing. */
  lemma LeftSucceedsWithRight(a: Bundle, b: Bundle, c: Bundle, now: Time)
    requires MergedRight(a, b, c, now).Ok?
    ensures MergedLeft(a, b, c, now).Ok? <==> NonNil(a.certificates) + NonNil(b.certificates) != []
  {
    MergedLeftOkIff(a, b, c, now);
    MergedRightOkIff(a, b, c, now);
    FrontOfSound(a, b, c, now);
  }

  /** And an inner merge can fail where the other way succeeds: an expired
      certificate is harmless once a current one with the same key precedes it. */
  lemma ShadowedExpiryBreaksAssociativity(good: RawCert, other: RawCert, now: Time)
    requires good.isCA && Current(good, now) && other.isCA && Current(other, now)
    requires good.publicKey != other.publicKey
    ensures var stale := good.(notAfter := now - 1, notBefore := now - 1);
      var a := Bundle([Some(good)]); var b := Bundle([Some(stale)]); var c := Bundle([Some(other)]);
      MergedLeft(a, b, c, now).Ok? && MergedRight(a, b, c, now).Err?
  {
    var stale := good.(notAfter := now - 1, notBefore := now - 1);
    var a, b, c := Bundle([Some(good)]), Bundle([Some(stale)]), Bundle([Some(other)]);
    Singleton(good);
    Singleton(stale);
    Singleton(other);
    MergePair(a, b, good, stale, now);
    MergePair(b, c, stale, other, now);
    MergePair(Merged(a, b, now).value, c, good, other, now);
  }

  lemma Singleton(c: RawCert)
    ensures NonNil([Some(c)]) == [c]
  {
    assert [Some(c)][..0] == [];
  }

  lemma MergePair(a: Bundle, b: Bundle, x: RawCert, y: RawCert, now: Time)
    requires NonNil(a.certificates) == [x] && NonNil(b.certificates) == [y]
    ensures MergedCerts(a, b) == if x.publicKey == y.publicKey then [x] else [x, y]
    ensures Merged(a, b, now).Ok? <==>
            x.isCA && Current(x, now) && (x.publicKey == y.publicKey || (y.isCA && Current(y, now)))
    ensures Merged(a, b, now).Ok? ==> NonNil(Merged(a, b, now).value.certificates) == MergedCerts(a, b)
  {
    MergedOkIff(a, b, now);
    DistinctIsFixed(PublicKey(), [x]);
    FirstWinsAppend(PublicKey(), [x], y);
    assert HasKey(PublicKey(), [x], PublicKey()(y)) <==> x.publicKey == y.publicKey by {
      assert PublicKey()([x][0]) == x.publicKey;
    }
    assert [x] + [y] == [x, y];
    assert [x, y][0] == x && [x, y][1] == y && [x][0] == x;
  }
}
