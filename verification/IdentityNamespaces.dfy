/** SPIFFE identity namespaces: parsing, printing and the ancestor relation. The
    library parser follows sections 2.1, 2.2 and 2.3 of the SPIFFE-ID standard;
    the longest trust domain it takes is a parameter. */
module IdentityNamespaces {
  import opened Common
  import opened Paths

  datatype IdentityNamespace = IdentityNamespace(domain: string, path: string)

  datatype ParseError = EmptyId | WrongScheme | BadTrustDomain | MissingTrustDomain | BadPath | TooLong

  const SCHEME: string := "spiffe://"

  const MAX_SPIFFE_ID_LENGTH: nat := 2048

  predicate DomainChar(c: char) {
    'a' <= c <= 'z' || '0' <= c <= '9' || c == '.' || c == '-' || c == '_'
  }

  predicate SegmentChar(c: char) {
    DomainChar(c) || 'A' <= c <= 'Z'
  }

  predicate DomainChars(s: string) {
    forall i :: 0 <= i < |s| ==> DomainChar(s[i])
  }

  predicate ValidDomain(s: string, longest: nat) {
    DomainChars(s) && 0 < |s| <= longest
  }

  predicate ValidSegment(s: string) {
    s != "" && s != "." && s != ".." && forall i :: 0 <= i < |s| ==> SegmentChar(s[i])
  }

  predicate ValidSegments(segments: seq<string>) {
    forall i :: 0 <= i < |segments| ==> ValidSegment(segments[i])
  }

  predicate ValidPath(path: string) {
    path == "" || (path[0] == '/' && ValidSegments(Split(path[1..])))
  }

  // ---- The library ------------------------------------------------------------

  function FirstSlash(s: string): (n: nat)
    ensures n <= |s| && SlashFree(s[..n]) && (n < |s| ==> s[n] == '/')
  {
    if s == "" || s[0] == '/' then 0 else 1 + FirstSlash(s[1..])
  }

  function FromString(id: string, longest: nat): Result<(string, string), ParseError> {
    if id == "" then Err(EmptyId)
    else if !(SCHEME <= id) then Err(WrongScheme)
    else
      var rest := id[|SCHEME|..];
      var n := FirstSlash(rest);
      if !DomainChars(rest[..n]) then Err(BadTrustDomain)
      else if n == 0 then Err(MissingTrustDomain)
      else if n > longest then Err(BadTrustDomain)
      else if !ValidPath(rest[n..]) then Err(BadPath)
      else Ok((rest[..n], rest[n..]))
  }

  // ---- The namespace -----------------------------------------------------------

  function Print(ns: IdentityNamespace): string {
    if ns.domain == "" && ns.path == "" then "" else SCHEME + ns.domain + ns.path
  }

  function NewNamespace(domain: string, path: string, longest: nat): Result<IdentityNamespace, ParseError> {
    if domain == "" then Err(MissingTrustDomain)
    else if !ValidDomain(domain, longest) then Err(BadTrustDomain)
    else if !ValidPath(if path == "/" then "" else path) then Err(BadPath)
    else if |Print(IdentityNamespace(domain, path))| > MAX_SPIFFE_ID_LENGTH then Err(TooLong)
    else Ok(IdentityNamespace(domain, path))
  }

  function Slashes(s: string): nat {
    if s == "" then 0 else (if s[0] == '/' then 1 else 0) + Slashes(s[1..])
  }

  /** `spiffe://td/` is read as `spiffe://td`. */
  function Normalized(s: string): string {
    if s != "" && s[|s| - 1] == '/' && Slashes(s) == 3 then s[..|s| - 1] else s
  }

  function Parse(s: string, longest: nat): Result<IdentityNamespace, ParseError> {
    if s == "" then Err(EmptyId)
    else
      var parsed := FromString(Normalized(s), longest);
      if parsed.Err? then Err(parsed.error)
      else
        var (domain, path) := parsed.value;
        NewNamespace(domain, if path == "" then "/" else path, longest)
  }

  // ---- What the parser accepts -------------------------------------------------

  lemma {:induction false} FirstSlashAfter(domain: string, path: string)
    requires SlashFree(domain) && (path == "" || path[0] == '/')
    ensures FirstSlash(domain + path) == |domain|
  {
    if domain == "" {
      assert domain + path == path;
    } else {
      assert (domain + path)[1..] == domain[1..] + path;
      FirstSlashAfter(domain[1..], path);
    }
  }

  lemma {:induction false} SlashesConcat(a: string, b: string)
    ensures Slashes(a + b) == Slashes(a) + Slashes(b)
  {
    if a == "" {
      assert a + b == b;
    } else {
      assert (a + b)[1..] == a[1..] + b;
      SlashesConcat(a[1..], b);
    }
  }

  lemma {:induction false} NoSlashes(s: string)
    ensures Slashes(s) == 0 <==> SlashFree(s)
  {
    if s != "" {
      NoSlashes(s[1..]);
      assert s == [s[0]] + s[1..];
    }
  }

  lemma SlashesOf(domain: string, path: string)
    requires SlashFree(domain)
    ensures Slashes(SCHEME + domain + path) == 2 + Slashes(path)
  {
    SlashesConcat(SCHEME + domain, path);
    SlashesConcat(SCHEME, domain);
    NoSlashes(domain);
    assert SCHEME == "spiffe:" + "//";
    SlashesConcat("spiffe:", "//");
    NoSlashes("spiffe:");
    assert "//"[1..] == "/" && "/"[1..] == "";
  }

  lemma ValidPathEnd(path: string)
    requires ValidPath(path) && path != ""
    ensures path[|path| - 1] != '/'
  {
    if path[|path| - 1] == '/' {
      LastPartEmpty(path[1..]);
    }
  }

  lemma ReadsRoot(domain: string)
    requires SlashFree(domain)
    ensures Normalized(SCHEME + domain + "/") == SCHEME + domain
  {
    SlashesOf(domain, "/");
    assert "/"[1..] == "";
  }

  /** No other slash is trimmed. */
  lemma ReadsAsIs(domain: string, rest: string)
    requires SlashFree(domain) && (rest == "" || rest[0] == '/') && rest != "/"
    ensures Normalized(SCHEME + domain + rest) == SCHEME + domain + rest
  {
    var s := SCHEME + domain + rest;
    SlashesOf(domain, rest);
    if rest == "" {
      assert Slashes("") == 0;
    } else if rest[|rest| - 1] == '/' {
      var n := |rest| - 1;
      assert rest == rest[..n] + "/";
      SlashesConcat(rest[..n], "/");
      NoSlashes(rest[..n]);
      assert "/"[1..] == "" && rest[..n][0] == '/';
    }
  }

  lemma FromParts(domain: string, rest: string, longest: nat)
    requires SlashFree(domain) && (rest == "" || rest[0] == '/')
    ensures FromString(SCHEME + domain + rest, longest) ==
      if !DomainChars(domain) then Err(BadTrustDomain)
      else if domain == "" then Err(MissingTrustDomain)
      else if |domain| > longest then Err(BadTrustDomain)
      else if !ValidPath(rest) then Err(BadPath)
      else Ok((domain, rest))
  {
    var id := SCHEME + domain + rest;
    FirstSlashAfter(domain, rest);
    assert id[|SCHEME|..] == domain + rest;
    assert (domain + rest)[..|domain|] == domain && (domain + rest)[|domain|..] == rest;
  }

  /** How a string that has the scheme is read: as the parts of a namespace, a lone slash
      and no path alike; and a refusal names the first part that is wrong. */
  lemma ParsedAsParts(domain: string, rest: string, longest: nat)
    requires SlashFree(domain) && (rest == "" || rest[0] == '/')
    ensures Parse(SCHEME + domain + rest, longest) ==
      if !DomainChars(domain) then Err(BadTrustDomain)
      else if domain == "" then Err(MissingTrustDomain)
      else if |domain| > longest then Err(BadTrustDomain)
      else if rest != "/" && !ValidPath(rest) then Err(BadPath)
      else if |SCHEME| + |domain| + (if rest == "" then 1 else |rest|) > MAX_SPIFFE_ID_LENGTH then Err(TooLong)
      else Ok(IdentityNamespace(domain, if rest == "" then "/" else rest))
  {
    var s := SCHEME + domain + rest;
    if rest == "/" {
      ReadsRoot(domain);
      FromParts(domain, "", longest);
      assert SCHEME + domain + "" == SCHEME + domain;
    } else {
      ReadsAsIs(domain, rest);
      FromParts(domain, rest, longest);
    }
    assert |SCHEME + domain + (if rest == "" then "/" else rest)| ==
           |SCHEME| + |domain| + (if rest == "" then 1 else |rest|);
  }

  /** Everything after the scheme is a part without a slash and a rest that is empty or
      starts with one. */
  lemma SchemeThen(s: string) returns (domain: string, rest: string)
    requires SCHEME <= s
    ensures s == SCHEME + domain + rest && SlashFree(domain) && (rest == "" || rest[0] == '/')
  {
    var tail := s[|SCHEME|..];
    domain, rest := tail[..FirstSlash(tail)], tail[FirstSlash(tail)..];
    assert s == SCHEME + tail && tail == domain + rest;
  }

  /** And a string without the scheme is refused for that. */
  lemma NoSchemeRefused(s: string, longest: nat)
    ensures Parse(s, longest) == Err(EmptyId) <==> s == ""
    ensures Parse(s, longest) == Err(WrongScheme) <==> s != "" && !(SCHEME <= s)
  {
    if SCHEME <= s {
      var domain, rest := SchemeThen(s);
      ParsedAsParts(domain, rest, longest);
    } else if s != "" {
      assert s[1..] == "" ==> Slashes(s) <= 1;
      assert Normalized(s) != "";
      assert Normalized(s) <= s;
    }
  }

  lemma ParseForm(domain: string, path: string, longest: nat)
    requires ValidDomain(domain, longest) && ValidPath(path)
    ensures Parse(SCHEME + domain + path, longest) == NewNamespace(domain, if path == "" then "/" else path, longest)
  {
    ParsedAsParts(domain, path, longest);
  }

  lemma ParseRoot(domain: string, longest: nat)
    requires ValidDomain(domain, longest)
    ensures Parse(SCHEME + domain + "/", longest) == NewNamespace(domain, "/", longest)
  {
    ParsedAsParts(domain, "/", longest);
  }

  lemma FromStringOk(id: string, longest: nat)
    requires FromString(id, longest).Ok?
    ensures var (domain, path) := FromString(id, longest).value;
      ValidDomain(domain, longest) && ValidPath(path) && id == SCHEME + domain + path
  {
    var rest := id[|SCHEME|..];
    assert id == SCHEME + rest;
    assert rest == rest[..FirstSlash(rest)] + rest[FirstSlash(rest)..];
  }

  /** What an accepted string looks like. */
  lemma ParseOk(s: string, longest: nat) returns (path: string)
    requires Parse(s, longest).Ok?
    ensures var ns := Parse(s, longest).value;
      && ValidDomain(ns.domain, longest) && ValidPath(path)
      && ns.path == (if path == "" then "/" else path)
      && NewNamespace(ns.domain, ns.path, longest) == Ok(ns)
      && |SCHEME| + |ns.domain| + |ns.path| <= MAX_SPIFFE_ID_LENGTH
      && (if path == "" then s == SCHEME + ns.domain || s == SCHEME + ns.domain + "/"
          else s == SCHEME + ns.domain + path)
  {
    FromStringOk(Normalized(s), longest);
    var domain := FromString(Normalized(s), longest).value.0;
    path := FromString(Normalized(s), longest).value.1;
    assert path == "" ==> SCHEME + domain + path == SCHEME + domain;
    if Normalized(s) != s {
      TrimmedIsBare(s, domain, path);
    }
  }

  lemma TrimmedIsBare(s: string, domain: string, path: string)
    requires Normalized(s) != s && Normalized(s) == SCHEME + domain + path
    requires DomainChars(domain) && ValidPath(path)
    ensures path == "" && s == SCHEME + domain + path + "/"
  {
    assert s == Normalized(s) + "/";
    SlashesConcat(Normalized(s), "/");
    assert "/"[1..] == "";
    SlashesOf(domain, path);
    NoSlashes(path);
  }

  // ---- Canonical namespaces ------------------------------------------------------

  /** What a parsed namespace looks like. */
  predicate Canonical(ns: IdentityNamespace, longest: nat) {
    && ValidDomain(ns.domain, longest)
    && ns.path != "" && (ns.path == "/" || ValidPath(ns.path))
    && |SCHEME| + |ns.domain| + |ns.path| <= MAX_SPIFFE_ID_LENGTH
  }

  lemma {:induction false} CanonicalReparses(ns: IdentityNamespace, longest: nat)
    requires Canonical(ns, longest)
    ensures Parse(Print(ns), longest) == Ok(ns)
  {
    assert Print(ns) == SCHEME + ns.domain + ns.path;
    if ns.path == "/" {
      ParseRoot(ns.domain, longest);
    } else {
      ParseForm(ns.domain, ns.path, longest);
    }
  }

  /** The parser yields exactly these. */
  lemma {:induction false} ParsedIffCanonical(ns: IdentityNamespace, longest: nat)
    ensures (exists s: string :: Parse(s, longest) == Ok(ns)) <==> Canonical(ns, longest)
  {
    if s: string :| Parse(s, longest) == Ok(ns) {
      var path := ParseOk(s, longest);
    }
    if Canonical(ns, longest) {
      CanonicalReparses(ns, longest);
    }
  }

  // ---- Round trip ---------------------------------------------------------------

  lemma {:induction false} PrintForm(s: string, longest: nat)
    requires Parse(s, longest).Ok?
    ensures var ns := Parse(s, longest).value; Print(ns) == if s == SCHEME + ns.domain then s + "/" else s
  {
    var ns := Parse(s, longest).value;
    var path := ParseOk(s, longest);
    assert Print(ns) == SCHEME + ns.domain + ns.path;
    assert |SCHEME + ns.domain + ns.path| == |SCHEME + ns.domain| + |ns.path|;
  }

  /** Parsing what a parsed namespace prints gives it back, and printing gives the
      string back except that a bare trust domain gains its slash. */
  lemma {:induction false} RoundTrip(s: string, longest: nat)
    requires Parse(s, longest).Ok?
    ensures var ns := Parse(s, longest).value;
      && Parse(Print(ns), longest) == Ok(ns)
      && Print(ns) == if s == SCHEME + ns.domain then s + "/" else s
  {
    PrintForm(s, longest);
    ParsedIffCanonical(Parse(s, longest).value, longest);
    CanonicalReparses(Parse(s, longest).value, longest);
  }

  /** Parsed namespaces print alike only if they are equal. */
  lemma {:induction false} PrintIsInjective(a: IdentityNamespace, b: IdentityNamespace, longest: nat)
    requires Canonical(a, longest) && Canonical(b, longest) && Print(a) == Print(b)
    ensures a == b
  {
    CanonicalReparses(a, longest);
    CanonicalReparses(b, longest);
  }

  /** The grammar: a trust domain, then valid segments each behind a slash, or a
      lone slash; and the printed form fits. */
  ghost predicate InGrammar(s: string, longest: nat) {
    exists domain: string, segments: seq<string> ::
      Spells(s, domain, segments) && ValidDomain(domain, longest) && ValidSegments(segments) && Fits(domain, segments)
  }

  ghost predicate Spells(s: string, domain: string, segments: seq<string>) {
    s == SCHEME + domain + Path(segments) || (segments == [] && s == SCHEME + domain + "/")
  }

  ghost predicate Fits(domain: string, segments: seq<string>) {
    |SCHEME| + |domain| + (if segments == [] then 1 else |Path(segments)|) <= MAX_SPIFFE_ID_LENGTH
  }

  lemma ValidSegmentsSlashFree(segments: seq<string>)
    requires ValidSegments(segments)
    ensures forall i :: 0 <= i < |segments| ==> SlashFree(segments[i])
  {
    forall i | 0 <= i < |segments| ensures SlashFree(segments[i]) {
      assert ValidSegment(segments[i]);
    }
  }

  /** Scanning a path between slashes accepts exactly the paths the grammar builds. */
  lemma ValidPathIff(path: string)
    ensures ValidPath(path) <==> exists segments: seq<string> :: ValidSegments(segments) && path == Path(segments)
  {
    if ValidPath(path) {
      if path == "" {
        assert ValidSegments([]) && path == Path([]);
      } else {
        SplitAndBack(path);
      }
    }
    if segments: seq<string> :| ValidSegments(segments) && path == Path(segments) {
      if segments != [] {
        ValidSegmentsSlashFree(segments);
        SplitOfPath(segments);
      }
    }
  }

  lemma AcceptedIsInGrammar(s: string, longest: nat)
    requires Parse(s, longest).Ok?
    ensures InGrammar(s, longest)
  {
    var ns := Parse(s, longest).value;
    var path := ParseOk(s, longest);
    ValidPathIff(path);
    var segments: seq<string> :| ValidSegments(segments) && path == Path(segments);
    assert path == "" <==> segments == [];
    assert path == "" ==> SCHEME + ns.domain + path == SCHEME + ns.domain;
    assert Spells(s, ns.domain, segments) && Fits(ns.domain, segments);
  }

  lemma GrammarIsAccepted(s: string, domain: string, segments: seq<string>, longest: nat)
    requires Spells(s, domain, segments) && ValidDomain(domain, longest) && ValidSegments(segments)
            && Fits(domain, segments)
    ensures Parse(s, longest).Ok?
  {
    ValidPathIff(Path(segments));
    if s == SCHEME + domain + Path(segments) {
      ParseForm(domain, Path(segments), longest);
    } else {
      ParseRoot(domain, longest);
    }
  }

  lemma AcceptedIffInGrammar(s: string, longest: nat)
    ensures Parse(s, longest).Ok? <==> InGrammar(s, longest)
  {
    if Parse(s, longest).Ok? {
      AcceptedIsInGrammar(s, longest);
    }
    if domain: string, segments: seq<string> :|
      Spells(s, domain, segments) && ValidDomain(domain, longest) && ValidSegments(segments) && Fits(domain, segments)
    {
      GrammarIsAccepted(s, domain, segments, longest);
    }
  }

  // ---- What is refused, and why ----------------------------------------------------

  /** Building from parts succeeds exactly for a valid trust domain, an empty path, a lone
      slash or a slash before each of one or more valid segments, and a printed form
      that fits; otherwise the first of these that fails is reported. */
  lemma BuiltIff(domain: string, path: string, longest: nat)
    ensures var r := NewNamespace(domain, path, longest);
      var pathOk := path == "/" || exists segments: seq<string> :: ValidSegments(segments) && path == Path(segments);
      && (r.Ok? <==> ValidDomain(domain, longest) && pathOk
                     && |SCHEME| + |domain| + |path| <= MAX_SPIFFE_ID_LENGTH)
      && (r.Ok? ==> r.value == IdentityNamespace(domain, path))
      && (r == Err(MissingTrustDomain) <==> domain == "")
      && (r == Err(BadTrustDomain) <==> domain != "" && !ValidDomain(domain, longest))
      && (r == Err(BadPath) <==> ValidDomain(domain, longest) && !pathOk)
      && r != Err(EmptyId) && r != Err(WrongScheme)
  {
    ValidPathIff(path);
    assert ValidPath("") && |SCHEME + domain + path| == |SCHEME| + |domain| + |path|;
  }

  /** A namespace built from parts survives printing exactly when its path is not
      empty, though the constructor takes the empty path too. */
  lemma {:induction false} BuiltRoundTripsIff(domain: string, path: string, longest: nat)
    requires NewNamespace(domain, path, longest).Ok?
    ensures Parse(Print(IdentityNamespace(domain, path)), longest) == Ok(IdentityNamespace(domain, path)) <==>
            path != ""
  {
    if path == "/" {
      ParseRoot(domain, longest);
    } else {
      ParseForm(domain, path, longest);
    }
  }

  // ---- Ancestors ------------------------------------------------------------------

  predicate IsChildOf(ns: IdentityNamespace, parent: IdentityNamespace) {
    ns.domain == parent.domain &&
    (parent.path == "/" ||
     (if parent.path != "" && parent.path[|parent.path| - 1] == '/' then parent.path else parent.path + "/") <= ns.path)
  }

  function Segments(ns: IdentityNamespace): seq<string> {
    if ns.path == "" || ns.path == "/" then [] else Split(ns.path[1..])
  }

  lemma {:induction false} CanonicalPath(ns: IdentityNamespace, longest: nat)
    requires Canonical(ns, longest)
    ensures ns.path[0] == '/'
    ensures ns.path != "/" ==> ns.path[|ns.path| - 1] != '/' && |ns.path| > 1
  {
    if ns.path != "/" {
      ValidPathEnd(ns.path);
    }
  }

  lemma {:induction false} CanonicalSegments(ns: IdentityNamespace, longest: nat)
    requires Canonical(ns, longest)
    ensures ValidSegments(Segments(ns))
    ensures Segments(ns) == [] <==> ns.path == "/"
    ensures ns.path == if Segments(ns) == [] then "/" else Path(Segments(ns))
  {
    CanonicalPath(ns, longest);
    if ns.path != "/" {
      SplitAndBack(ns.path);
    }
  }

  /** Parsed namespaces are their trust domain and segments, no more. */
  lemma {:induction false} SegmentsDetermine(a: IdentityNamespace, b: IdentityNamespace, longest: nat)
    requires Canonical(a, longest) && Canonical(b, longest) && a.domain == b.domain && Segments(a) == Segments(b)
    ensures a == b
  {
    CanonicalSegments(a, longest);
    CanonicalSegments(b, longest);
  }

  lemma {:induction false} ChildBelowRoot(ns: IdentityNamespace, parent: IdentityNamespace)
    requires ns.path != "" && ns.path[0] == '/' && ns.domain == parent.domain
    requires |parent.path| > 1 && parent.path[0] == '/' && parent.path[|parent.path| - 1] != '/'
    ensures IsChildOf(ns, parent) <==> Split(parent.path[1..]) < Split(ns.path[1..])
  {
    var x, z := parent.path[1..], ns.path[1..];
    assert parent.path == "/" + x && ns.path == "/" + z;
    SlashPrefixIff(x, z);
    SlashPrefixBehindSlash(x, z);
  }

  /** The string test means: below the root, a proper prefix of segments. Only the
      root counts as a child of itself. */
  lemma {:induction false} IsChildIff(ns: IdentityNamespace, parent: IdentityNamespace, longest: nat)
    requires Canonical(ns, longest) && Canonical(parent, longest)
    ensures IsChildOf(ns, parent) <==>
            ns.domain == parent.domain && (Segments(parent) == [] || Segments(parent) < Segments(ns))
  {
    CanonicalPath(ns, longest);
    CanonicalPath(parent, longest);
    if parent.path != "/" && ns.domain == parent.domain {
      ChildBelowRoot(ns, parent);
      if ns.path == "/" {
        assert |Split(ns.path[1..])| == 1;
      }
    }
  }

  lemma {:induction false} ChildIsIrreflexiveBelowRoot(ns: IdentityNamespace, longest: nat)
    requires Canonical(ns, longest)
    ensures IsChildOf(ns, ns) <==> ns.path == "/"
  {
    IsChildIff(ns, ns, longest);
    CanonicalPath(ns, longest);
  }

  lemma {:induction false} ChildIsTransitive(a: IdentityNamespace, b: IdentityNamespace, c: IdentityNamespace,
                                             longest: nat)
    requires Canonical(a, longest) && Canonical(b, longest) && Canonical(c, longest)
    requires IsChildOf(a, b) && IsChildOf(b, c)
    ensures IsChildOf(a, c)
  {
    IsChildIff(a, b, longest);
    IsChildIff(b, c, longest);
    IsChildIff(a, c, longest);
  }

  lemma {:induction false} ChildIsAntisymmetric(a: IdentityNamespace, b: IdentityNamespace, longest: nat)
    requires Canonical(a, longest) && Canonical(b, longest)
    requires IsChildOf(a, b) && IsChildOf(b, a)
    ensures a == b && a.path == "/"
  {
    IsChildIff(a, b, longest);
    IsChildIff(b, a, longest);
    SegmentsDetermine(a, b, longest);
    CanonicalPath(a, longest);
  }

  /** The ancestors of one namespace form a chain. */
  lemma {:induction false} AncestorsAreComparable(ns: IdentityNamespace, a: IdentityNamespace,
                                                  b: IdentityNamespace, longest: nat)
    requires Canonical(ns, longest) && Canonical(a, longest) && Canonical(b, longest)
    requires IsChildOf(ns, a) && IsChildOf(ns, b)
    ensures a == b || IsChildOf(a, b) || IsChildOf(b, a)
  {
    IsChildIff(ns, a, longest);
    IsChildIff(ns, b, longest);
    IsChildIff(a, b, longest);
    IsChildIff(b, a, longest);
    if Segments(a) == Segments(b) {
      SegmentsDetermine(a, b, longest);
    } else if |Segments(a)| < |Segments(b)| {
      assert Segments(a) == Segments(ns)[..|Segments(a)|];
    }
  }

  function GetServiceName(ns: IdentityNamespace): string {
    if ns.path == "" || ns.path == "/" then ""
    else
      var clean := if ns.path[0] == '/' then ns.path[1..] else ns.path;
      var segments := Split(clean);
      segments[|segments| - 1]
  }

  /** The service name is the last step from the parent; only the root has none. */
  lemma {:induction false} ServiceNameIsLastStep(ns: IdentityNamespace, longest: nat)
    requires Canonical(ns, longest)
    ensures GetServiceName(ns) == "" <==> ns.path == "/"
    ensures ns.path != "/" ==>
      && Segments(ns) != []
      && ns.path == Path(Segments(ns)[..|Segments(ns)| - 1]) + "/" + GetServiceName(ns)
  {
    CanonicalPath(ns, longest);
    CanonicalSegments(ns, longest);
    if ns.path != "/" {
      var segments := Segments(ns);
      LastStep(segments);
      assert ValidSegment(segments[|segments| - 1]);
    }
  }
}
