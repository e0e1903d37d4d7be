/** Connections, the registry that owns them, and the decision to rotate, as
    values. A registry value lists every connection object ever created; the
    `connections` map holds positions in that list, the way the program's map
    holds pointers. */
module Connections {
  import opened Common

  datatype ConnState = Active | Rotating | Failed | Closed

  datatype Identity = Identity(name: string, domain: string)

  datatype Certificate = Certificate(serial: int, spiffeId: string, notBefore: Time, notAfter: Time)

  /** What a TLS connection knows of its handshake. */
  datatype TlsState = TlsState(handshakeComplete: bool, peerCertificates: nat)

  /** `cert` is None for a nil certificate and for a wrapper around nil. */
  datatype Conn = Conn(id: string, local: Identity, remote: Identity, state: ConnState,
                       establishedAt: Time, lastRotated: Time, cert: Option<Certificate>, tls: Option<TlsState>)

  datatype Registry = Registry(objects: seq<Conn>, connections: map<string, nat>) {
    ghost predicate Valid() {
      && (forall k :: k in connections ==> connections[k] < |objects|)
      && (forall k :: k in connections ==> objects[connections[k]].id == k)
      && (forall k :: k in connections ==> objects[connections[k]].state != Closed)
    }

    ghost predicate Registered(o: nat) {
      exists k :: k in connections && connections[k] == o
    }

    function Establish(id: string, local: Identity, remote: Identity, cert: Option<Certificate>, now: Time): Registry {
      Registry(objects + [Conn(id, local, remote, Active, now, now, cert, None)], connections[id := |objects|])
    }

    function Close(id: string): Registry
      requires id in connections ==> connections[id] < |objects|
    {
      if id in connections then SetState(connections[id], Closed).(connections := connections - {id}) else this
    }

    function SetState(o: nat, state: ConnState): Registry
      requires o < |objects|
    {
      this.(objects := objects[o := objects[o].(state := state)])
    }

    function UpdateRotation(o: nat, cert: Certificate, now: Time): Registry
      requires o < |objects|
    {
      this.(objects := objects[o := objects[o].(state := Active, lastRotated := now, cert := Some(cert))])
    }

    /** What a rotation leaves behind when nothing comes between its steps. */
    function Rotate(id: string, fetched: Option<Certificate>, now: Time): Registry
      requires id in connections ==> connections[id] < |objects|
    {
      if id !in connections then this
      else if fetched.None? then SetState(connections[id], Failed)
      else UpdateRotation(connections[id], fetched.value, now)
    }
  }

  const EMPTY := Registry([], map[])

  datatype RotationPolicy = RotationPolicy(preRotationThreshold: Time, forceRotationInterval: Time)

  const DEFAULT_ROTATION_POLICY: RotationPolicy := RotationPolicy(15 * MINUTE, 30 * MINUTE)

  datatype Reason = CertificateExpiring(timeToExpiry: Time) | ForceRotation(interval: Time) | ConnectionFailed

  function DetermineRotationReason(conn: Conn, policy: RotationPolicy, now: Time): (reason: Option<Reason>)
    ensures reason.None? <==>
              && conn.state != Failed
              && now < conn.lastRotated + policy.forceRotationInterval
              && (conn.cert.Some? ==> now + policy.preRotationThreshold < conn.cert.value.notAfter)
    ensures var expiring := conn.cert.Some? && conn.cert.value.notAfter <= now + policy.preRotationThreshold;
      var overdue := conn.lastRotated + policy.forceRotationInterval <= now;
      && (expiring ==>
            reason.Some? && reason.value.CertificateExpiring? &&
            now + reason.value.timeToExpiry == conn.cert.value.notAfter)
      && (!expiring && overdue ==> reason == Some(ForceRotation(policy.forceRotationInterval)))
      && (reason == Some(ConnectionFailed) <==> !expiring && !overdue && conn.state == Failed)
  {
    if conn.cert.Some? && conn.cert.value.notAfter - now <= policy.preRotationThreshold then
      Some(CertificateExpiring(conn.cert.value.notAfter - now))
    else if now - conn.lastRotated >= policy.forceRotationInterval then
      Some(ForceRotation(policy.forceRotationInterval))
    else if conn.state == Failed then
      Some(ConnectionFailed)
    else
      None
  }
}
