/** The five invariants an enforcement service starts with, and what the default
    sweep makes of them. */
module DefaultInvariants {
  import opened Common
  import opened Connections
  import opened InvariantStatus
  import Enforcement
  import Namespaces = IdentityNamespaces
  import Paths
  import RotationBound
  import RotationProtocol

  function CheckValidity(conn: Conn, now: Time): Option<string> {
    if conn.cert.None? then Some("no certificate present")
    else if now < conn.cert.value.notBefore then Some("certificate not yet valid")
    else if now > conn.cert.value.notAfter then Some("certificate expired")
    else None
  }

  function CheckMutualAuth(conn: Conn): Option<string> {
    if conn.tls.None? then Some("no TLS connection state available")
    else if !conn.tls.value.handshakeComplete then Some("TLS handshake not completed")
    else if conn.tls.value.peerCertificates == 0 then Some("no peer certificates present")
    else None
  }

  function CheckTrustDomain(conn: Conn): Option<string> {
    if conn.local.domain == "" then Some("local identity has empty trust domain")
    else if conn.remote.domain == "" then Some("remote identity has empty trust domain")
    else None
  }

  const ROTATION_THRESHOLD: Time := 15 * MINUTE

  function CheckRotation(conn: Conn, now: Time): Option<string> {
    if conn.cert.None? then Some("no certificate present")
    else if conn.cert.value.notAfter - now <= ROTATION_THRESHOLD && conn.state != Rotating then
      Some("certificate should be rotating")
    else if now - conn.lastRotated > RotationBound.MAX_CONNECTION_AGE then Some("connection too old without rotation")
    else None
  }

  function Uri(identity: Identity): string {
    "spiffe://" + identity.domain + "/" + identity.name
  }

  function CheckIdentity(conn: Conn): Option<string> {
    if conn.cert.None? then Some("no certificate present")
    else if conn.cert.value.spiffeId != Uri(conn.local)
        then Some("certificate SPIFFE ID does not match expected identity")
    else None
  }

  /** Each check alone: when it passes, and which of its errors comes first. */
  lemma EachDefaultIff(conn: Conn, now: Time)
    ensures CheckValidity(conn, now).None? <==>
            conn.cert.Some? && conn.cert.value.notBefore <= now <= conn.cert.value.notAfter
    ensures conn.cert.Some? && now < conn.cert.value.notBefore ==>
              CheckValidity(conn, now) == Some("certificate not yet valid")
    ensures conn.cert.Some? && conn.cert.value.notBefore <= now && conn.cert.value.notAfter < now ==>
              CheckValidity(conn, now) == Some("certificate expired")
    ensures CheckMutualAuth(conn).None? <==>
            conn.tls.Some? && conn.tls.value.handshakeComplete && conn.tls.value.peerCertificates > 0
    ensures CheckMutualAuth(conn) == Some("no TLS connection state available") <==> conn.tls.None?
    ensures CheckMutualAuth(conn) == Some("TLS handshake not completed") <==>
            conn.tls.Some? && !conn.tls.value.handshakeComplete
    ensures CheckTrustDomain(conn).None? <==> conn.local.domain != "" && conn.remote.domain != ""
    ensures CheckTrustDomain(conn) == Some("local identity has empty trust domain") <==> conn.local.domain == ""
    ensures CheckRotation(conn, now).None? <==>
      && conn.cert.Some? && now <= conn.lastRotated + RotationBound.MAX_CONNECTION_AGE
      && (now + ROTATION_THRESHOLD < conn.cert.value.notAfter || conn.state == Rotating)
    ensures CheckRotation(conn, now) == Some("connection too old without rotation") ==>
              now > conn.lastRotated + RotationBound.MAX_CONNECTION_AGE
              && (now + ROTATION_THRESHOLD < conn.cert.value.notAfter || conn.state == Rotating)
    ensures CheckIdentity(conn).None? <==> conn.cert.Some? && conn.cert.value.spiffeId == Uri(conn.local)
    ensures conn.cert.None? ==>
              CheckValidity(conn, now) == CheckRotation(conn, now) == CheckIdentity(conn)
              == Some("no certificate present")
  {
    var tooOld, due := "connection too old without rotation", "certificate should be rotating";
    var complete, state := "TLS handshake not completed", "no TLS connection state available";
    assert |tooOld| != |due| && |complete| != |state| && |"no peer certificates present"| != |complete|;
    assert |"local identity has empty trust domain"| != |"remote identity has empty trust domain"|;
    assert |"no certificate present"| != |tooOld|;
  }

  /** The URI an identity expects is that of the namespace of its trust domain with its
      name as the only step. */
  lemma UriIsNamespace(identity: Identity, longest: nat)
    requires Namespaces.ValidDomain(identity.domain, longest) && Namespaces.ValidSegment(identity.name)
    requires |Namespaces.SCHEME| + |identity.domain| + 1 + |identity.name| <= Namespaces.MAX_SPIFFE_ID_LENGTH
    ensures var parsed := Namespaces.Parse(Uri(identity), longest);
      && parsed == Common.Ok(Namespaces.IdentityNamespace(identity.domain, "/" + identity.name))
      && Namespaces.GetServiceName(parsed.value) == identity.name
  {
    var path := "/" + identity.name;
    assert Uri(identity) == Namespaces.SCHEME + identity.domain + path;
    Namespaces.ValidSegmentsSlashFree([identity.name]);
    assert Paths.SlashFree([identity.name][0]);
    Paths.SplitSlashFree(identity.name);
    assert path[1..] == identity.name;
    Namespaces.ParsedAsParts(identity.domain, path, longest);
  }

  function Defaults(now: Time): seq<Invariant> {
    [Invariant("certificate_validity", conn => CheckValidity(conn, now)),
     Invariant("mutual_authentication", conn => CheckMutualAuth(conn)),
     Invariant("trust_domain_validation", conn => CheckTrustDomain(conn)),
     Invariant("certificate_rotation", conn => CheckRotation(conn, now)),
     Invariant("identity_matching", conn => CheckIdentity(conn))]
  }

  function One(error: Option<string>): nat {
    if error.Some? then 1 else 0
  }

  lemma CountFive(rules: seq<Invariant>, conn: Conn)
    requires |rules| == 5
    ensures |Failing(rules, conn)| ==
            One(rules[0].check(conn)) + One(rules[1].check(conn)) + One(rules[2].check(conn))
            + One(rules[3].check(conn)) + One(rules[4].check(conn))
  {
    CountNext(rules, 0, conn);
    CountNext(rules, 1, conn);
    CountNext(rules, 2, conn);
    CountNext(rules, 3, conn);
    CountNext(rules, 4, conn);
    assert rules[..5] == rules;
  }

  lemma CountNext(rules: seq<Invariant>, n: nat, conn: Conn)
    requires n < |rules|
    ensures |Failing(rules[..n + 1], conn)| == |Failing(rules[..n], conn)| + One(rules[n].check(conn))
  {
    FailingAppend(rules[..n], rules[n], conn);
    assert rules[..n] + [rules[n]] == rules[..n + 1];
  }

  lemma CountDefaults(conn: Conn, now: Time)
    ensures |Failing(Defaults(now), conn)| ==
            One(CheckValidity(conn, now)) + One(CheckMutualAuth(conn)) + One(CheckTrustDomain(conn))
            + One(CheckRotation(conn, now)) + One(CheckIdentity(conn))
  {
    CountFive(Defaults(now), conn);
  }

  /** No connection that the program ever establishes satisfies the defaults, so
      ValidateConnection never passes. */
  lemma NothingPassesDefaults(run: seq<RotationProtocol.Step>, o: nat, now: Time)
    requires RotationProtocol.ValidRun(RotationProtocol.INIT, run)
    requires o < |RotationProtocol.After(RotationProtocol.INIT, run).reg.objects|
    ensures var conn := RotationProtocol.After(RotationProtocol.INIT, run).reg.objects[o];
      CheckMutualAuth(conn).Some? && Failing(Defaults(now), conn) != []
  {
    RotationProtocol.TlsIsNeverSet(RotationProtocol.INIT, run);
    CountDefaults(RotationProtocol.After(RotationProtocol.INIT, run).reg.objects[o], now);
  }

  /** The defaults pass exactly for a finished handshake with a peer certificate, a
      certificate of one's own that is valid and neither due nor overdue, and trust
      domains on both sides. */
  lemma PassesDefaultsIff(conn: Conn, now: Time)
    ensures Failing(Defaults(now), conn) == [] <==>
      && conn.tls.Some? && conn.tls.value.handshakeComplete && conn.tls.value.peerCertificates > 0
      && conn.cert.Some? && conn.cert.value.spiffeId == Uri(conn.local)
      && conn.cert.value.notBefore <= now <= conn.cert.value.notAfter
      && (now + ROTATION_THRESHOLD < conn.cert.value.notAfter || conn.state == Rotating)
      && now <= conn.lastRotated + RotationBound.MAX_CONNECTION_AGE
      && conn.local.domain != "" && conn.remote.domain != ""
  {
    CountDefaults(conn, now);
  }

  /** While the monitor keeps its pace, the default sweep closes a connection
      with its own certificate and proper trust domains exactly when the
      mutual check fails, the certificate is outside its validity and within the
      rotation threshold of its end, and it is not being rotated. */
  lemma DefaultSweepClosesMonitoredIff(reg: Registry, id: string, first: Conn, ticks: seq<RotationBound.Tick>,
                                       k: nat, now: Time)
    requires reg.Valid() && id in reg.connections
    requires first.state == Active && k <= 29
    requires RotationBound.Paced(first.lastRotated, MINUTE, ticks)
    requires RotationBound.Tolerable(first, DEFAULT_ROTATION_POLICY, ticks, k)
    requires var last := RotationBound.LastCheck(first.lastRotated, ticks); last <= now <= last + MINUTE
    requires var conn := reg.objects[reg.connections[id]];
      && conn.lastRotated == RotationBound.Monitored(first, DEFAULT_ROTATION_POLICY, ticks).lastRotated
      && conn.cert.Some? && conn.cert.value.spiffeId == Uri(conn.local)
      && conn.local.domain != "" && conn.remote.domain != ""
    ensures var conn := reg.objects[reg.connections[id]]; var cert := conn.cert.value;
      id !in Enforcement.Swept(reg, Defaults(now), Enforcement.DEFAULT_POLICY).connections <==>
      && CheckMutualAuth(conn).Some?
      && !(cert.notBefore <= now <= cert.notAfter)
      && cert.notAfter - now <= ROTATION_THRESHOLD
      && conn.state != Rotating
  {
    RotationBound.DefaultsKeepRotationInvariant(first, ticks, k, now);
    CountDefaults(reg.objects[reg.connections[id]], now);
    Enforcement.SweepKeepsExactlyTolerated(reg, Defaults(now), Enforcement.DEFAULT_POLICY, id);
  }
}
