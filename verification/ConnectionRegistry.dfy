/** The registry as it is built: connection objects and a map, changed in place.
    `View` is the registry value of module Connections. */
module ConnectionRegistry {
  import opened Common
  import opened Connections

  class MTLSConnection {
    const id: string
    const local: Identity
    const remote: Identity
    const establishedAt: Time
    var state: ConnState
    var lastRotated: Time
    var cert: Option<Certificate>
    var tlsState: Option<TlsState>
    ghost const place: nat                   // its position among the objects ever created
    ghost var trail: seq<ConnState>          // the states it has been in, in order

    function View(): Conn
      reads this
    {
      Conn(id, local, remote, state, establishedAt, lastRotated, cert, tlsState)
    }

    constructor (id: string, local: Identity, remote: Identity, cert: Option<Certificate>, now: Time, ghost place: nat)
      ensures View() == Conn(id, local, remote, Active, now, now, cert, None)
      ensures this.id == id && this.place == place && trail == [Active]
    {
      this.id, this.local, this.remote, this.establishedAt, this.place := id, local, remote, now, place;
      this.trail := [Active];
      this.state, this.lastRotated, this.cert, this.tlsState := Active, now, cert, None;
    }

    method SetState(state: ConnState)
      modifies this
      ensures View() == old(View()).(state := state) && trail == old(trail) + [state]
    {
      this.state := state;
      trail := trail + [state];
    }

    method UpdateRotation(after: Certificate, now: Time)
      modifies this
      ensures View() == old(View()).(state := Active, lastRotated := now, cert := Some(after))
      ensures trail == old(trail) + [Active]
    {
      lastRotated := now;
      cert := Some(after);
      state := Active;
      trail := trail + [Active];
    }
  }

  /** How a check or a rotation ends. */
  datatype Outcome = Done | NotDue | NotFound | NoCertificate | Panicked

  datatype Notice =
    | OnRotationStarted(connId: string)
    | OnRotationCompleted(connId: string, before: Option<Certificate>, after: Certificate)
    | OnRotationFailed(connId: string)

  /** One call of an observer. */
  datatype Call = Call(observer: string, notice: Notice)

  function CallsOf(observers: seq<string>, notice: Notice): (calls: seq<Call>)
    ensures |calls| == |observers|
    ensures forall i :: 0 <= i < |calls| ==> calls[i] == Call(observers[i], notice)
  {
    seq(|observers|, i requires 0 <= i < |observers| => Call(observers[i], notice))
  }

  function EndOf(id: string, before: Option<Certificate>, fetched: Option<Certificate>): Notice {
    if fetched.None? then OnRotationFailed(id) else OnRotationCompleted(id, before, fetched.value)
  }

  /** Between two states of the call list every observer was called twice: first each,
      in order, with the start of a rotation, then each, in order, with its end. */
  ghost predicate HeardRotation(was: seq<Call>, calls: seq<Call>, observers: seq<string>, id: string,
                                before: Option<Certificate>, fetched: Option<Certificate>)
  {
    && |calls| == |was| + 2 * |observers| && was <= calls
    && forall i :: 0 <= i < |observers| ==>
         && calls[|was| + i] == Call(observers[i], OnRotationStarted(id))
         && calls[|was| + |observers| + i] == Call(observers[i], EndOf(id, before, fetched))
  }

  lemma TwoRoundsAreHeard(was: seq<Call>, observers: seq<string>, id: string, before: Option<Certificate>,
                          fetched: Option<Certificate>)
    ensures HeardRotation(was, was + CallsOf(observers, OnRotationStarted(id))
                               + CallsOf(observers, EndOf(id, before, fetched)), observers, id, before, fetched)
  {
  }

  class MTLSConnectionRegistry {
    var connections: map<string, MTLSConnection>
    var observers: seq<string>
    var rotationPolicy: RotationPolicy
    var calls: seq<Call>                      // every observer call made, in order
    ghost var objects: seq<MTLSConnection>    // every connection created, in order

    ghost predicate Placed()
      reads this, objects
    {
      && (forall i :: 0 <= i < |objects| ==> objects[i].place == i)
      && (forall k :: k in connections ==>
          connections[k].place < |objects| && objects[connections[k].place] == connections[k])
    }

    ghost function View(): (reg: Registry)
      reads this, objects
      requires Placed()
    {
      Registry(seq(|objects|, i requires 0 <= i < |objects| reads this, objects => objects[i].View()),
               map k | k in connections :: connections[k].place)
    }

    ghost predicate Valid()
      reads this, objects
    {
      && Placed()
      && (forall k :: k in connections ==> connections[k].id == k && connections[k].state != Closed)
    }

    lemma ViewIsValid()
      requires Valid()
      ensures View().Valid()
    {
      forall k | k in connections ensures View().objects[View().connections[k]] == connections[k].View() {
      }
    }

    /** Changing one object changes one element of the view. */
    twostate lemma OneChanged(conn: MTLSConnection)
      requires old(Placed()) && Placed() && objects == old(objects)
      requires conn.place < |objects| && objects[conn.place] == conn
      requires forall o :: o in objects && o != conn ==> o.View() == old(o.View())
      ensures View().objects == old(View()).objects[conn.place := conn.View()]
    {
    }

    twostate lemma OneAdded(new conn: MTLSConnection)
      requires old(Placed()) && Placed() && objects == old(objects) + [conn]
      requires forall o :: o in old(objects) ==> o.View() == old(o.View())
      ensures View().objects == old(View()).objects + [conn.View()]
    {
    }

    constructor ()
      ensures Valid() && View() == EMPTY && observers == [] && calls == []
      ensures rotationPolicy == DEFAULT_ROTATION_POLICY
    {
      connections, observers, calls, objects := map[], [], [], [];
      rotationPolicy := DEFAULT_ROTATION_POLICY;
    }

    method SetRotationPolicy(policy: RotationPolicy)
      requires Valid()
      modifies `rotationPolicy
      ensures Valid() && View() == old(View()) && rotationPolicy == policy
    {
      rotationPolicy := policy;
    }

    method AddRotationObserver(observer: string)
      requires Valid()
      modifies `observers
      ensures Valid() && View() == old(View()) && observers == old(observers) + [observer]
    {
      observers := observers + [observer];
    }

    /** A second connection under one id takes the place of the first, which is not
        closed. Without a certificate the connection is registered all the same, and
        the log line after that panics. */
    method EstablishConnection(id: string, remote: Identity, cert: Option<Certificate>, local: Identity, now: Time)
      returns (conn: MTLSConnection, panicked: bool)
      requires Valid()
      modifies `connections, `objects
      ensures Valid() && fresh(conn) && objects == old(objects) + [conn]
      ensures View() == old(View()).Establish(id, local, remote, cert, now)
      ensures conn.View() == Conn(id, local, remote, Active, now, now, cert, None)
      ensures forall o :: o in old(objects) ==> o.View() == old(o.View())
      ensures connections == old(connections)[id := conn]
      ensures panicked <==> conn.cert.None?
    {
      conn := new MTLSConnection(id, local, remote, cert, now, |objects|);
      connections := connections[id := conn];
      objects := objects + [conn];
      OneAdded(conn);
      assert View().connections == old(View()).connections[id := |old(objects)|];
      panicked := cert.None?;
    }

    method GetConnection(id: string) returns (conn: Option<MTLSConnection>)
      requires Valid()
      ensures conn.Some? <==> id in View().connections
      ensures conn.Some? ==> conn.value.id == id && conn.value.state != Closed
      ensures conn.Some? ==> conn.value in objects && conn.value == connections[id]
    {
      conn := if id in connections then Some(connections[id]) else None;
    }

    /** Every registered connection once, in an order nobody controls. */
    ghost predicate Lists(list: seq<MTLSConnection>)
      reads this
    {
      && |list| == |connections|
      && (forall i :: 0 <= i < |list| ==> list[i].id in connections && connections[list[i].id] == list[i])
      && (forall i, j :: 0 <= i < j < |list| ==> list[i].id != list[j].id)
      && (forall k :: k in connections ==> connections[k] in list)
    }

    method ListConnections() returns (list: seq<MTLSConnection>)
      requires Valid()
      ensures Lists(list)
    {
      list := [];
      var rest := connections.Keys;
      while rest != {}
        invariant rest <= connections.Keys && |list| + |rest| == |connections.Keys|
        invariant forall i :: 0 <= i < |list| ==>
                list[i].id in connections.Keys - rest && connections[list[i].id] == list[i]
        invariant forall i, j :: 0 <= i < j < |list| ==> list[i].id != list[j].id
        invariant forall k :: k in connections.Keys - rest ==> connections[k] in list
        decreases |rest|
      {
        var k :| k in rest;
        list := list + [connections[k]];
        rest := rest - {k};
      }
    }

    method CloseConnection(id: string)
      requires Valid()
      modifies `connections, objects
      ensures Valid() && objects == old(objects)
      ensures View() == old(View()).Close(id)
      ensures connections == old(connections) - {id}
      ensures id in old(connections) ==>
        var conn := old(connections)[id]; conn.View() == old(conn.View()).(state := Closed)
      ensures forall o :: o in objects && !(id in old(connections) && o == old(connections)[id]) ==>
              o.View() == old(o.View())
    {
      if id in connections {
        var conn := connections[id];
        conn.SetState(Closed);
        connections := connections - {id};
        OneChanged(conn);
        assert View().connections == old(View()).Close(id).connections;
      } else {
        assert connections - {id} == connections;
      }
    }

    /** The three notify functions: each observer, in order of registration, once per registration. */
    method Notify(notice: Notice)
      modifies `calls
      ensures calls == old(calls) + CallsOf(observers, notice)
    {
      var copy := observers;
      for i := 0 to |copy|
        invariant calls == old(calls) + CallsOf(copy, notice)[..i]
      {
        calls := calls + [Call(copy[i], notice)];
      }
    }

    /** A rotation of one connection object, from its mark to its last notification. */
    method Rotate(conn: MTLSConnection, fetched: Option<Certificate>, now: Time)
      modifies `calls, conn
      ensures conn.View() == if fetched.None? then old(conn.View()).(state := Failed)
                             else old(conn.View()).(state := Active, lastRotated := now, cert := fetched)
      ensures conn.trail == old(conn.trail) + [Rotating, if fetched.None? then Failed else Active]
      ensures HeardRotation(old(calls), calls, observers, conn.id, old(conn.cert), fetched)
    {
      conn.SetState(Rotating);
      Notify(OnRotationStarted(conn.id));
      var oldCert := conn.cert;
      if fetched.None? {
        conn.SetState(Failed);
        Notify(OnRotationFailed(conn.id));
      } else {
        conn.UpdateRotation(fetched.value, now);
        Notify(OnRotationCompleted(conn.id, oldCert, fetched.value));
      }
      TwoRoundsAreHeard(old(calls), observers, conn.id, oldCert, fetched);
    }

    /** A rotation nobody interferes with; `fetched` is the provider's certificate
        if it could be fetched and passed validation. Rotating is never left behind.
        The closing log line panics when there was no certificate to replace. */
    method RotateConnection(id: string, fetched: Option<Certificate>, now: Time) returns (outcome: Outcome)
      requires Valid()
      modifies `calls, objects
      ensures Valid() && objects == old(objects)
      ensures View() == old(View()).Rotate(id, fetched, now)
      ensures outcome ==
        if id !in connections then NotFound
        else if fetched.None? then NoCertificate
        else if old(connections[id].cert).None? then Panicked
        else Done
      ensures id !in connections ==> calls == old(calls)
      ensures id in connections ==>
        && HeardRotation(old(calls), calls, observers, id, old(connections[id].cert), fetched)
        && connections[id].trail == old(connections[id].trail) + [Rotating, if fetched.None? then Failed else Active]
        && connections[id].cert == (if fetched.None? then old(connections[id].cert) else fetched)
    {
      if id !in connections {
        return NotFound;
      }
      var conn := connections[id];
      var oldCert := conn.cert;
      Rotate(conn, fetched, now);
      OneChanged(conn);
      return if fetched.None? then NoCertificate else if oldCert.None? then Panicked else Done;
    }

    method CheckAndRotateConnection(id: string, now: Time, fetched: Option<Certificate>, installed: Time)
        returns (outcome: Outcome)
      requires Valid()
      modifies `calls, objects
      ensures Valid() && objects == old(objects)
      ensures var due := id in connections
              && DetermineRotationReason(old(connections[id].View()), rotationPolicy, now).Some?;
        && View() == (if due then old(View()).Rotate(id, fetched, installed) else old(View()))
        && (if due then HeardRotation(old(calls), calls, observers, id, old(connections[id].cert), fetched)
            else calls == old(calls))
        && (outcome == NotDue <==> !due)
        && (outcome == Done <==> due && fetched.Some? && old(connections[id].cert).Some?)
        && (outcome == NoCertificate <==> due && fetched.None?)
        && (outcome == Panicked <==> due && fetched.Some? && old(connections[id].cert).None?)
    {
      if id !in connections {
        return NotDue;
      }
      var conn := connections[id];
      if conn.state == Closed {
        return NotDue;
      }
      var reason := DetermineRotationReason(
        conn.View(), rotationPolicy, now);
      if reason.None? {
        return NotDue;
      }
      outcome := RotateConnection(id, fetched, installed);
    }
  }
}
