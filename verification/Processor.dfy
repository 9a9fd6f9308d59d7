/** How the processor ties the client table to the session maps: CREATE_CLIENT handling, and the
    resolution of later packets to a client. */
module Processors {
  import opened Words
  import opened XrceIds
  import opened Roots
  import opened Sessions

  const SESSIONID_NONE_WITH_CLIENT_KEY: SessionId := 0x00
  const SESSIONID_NONE_WITHOUT_CLIENT_KEY: SessionId := 0x80

  // The state CREATE_CLIENT handling works on.
  datatype Agent<EndPoint(==)> = Agent(clients: Clients, sessions: Maps<EndPoint>)

  predicate NoneSession(sessionId: SessionId) {
    sessionId == SESSIONID_NONE_WITH_CLIENT_KEY || sessionId == SESSIONID_NONE_WITHOUT_CLIENT_KEY
  }

  // A different client that the source resolved to is deleted first, whatever comes of the creation.
  function Evict<EndPoint>(a: Agent<EndPoint>, source: EndPoint, key: ClientKey): Agent<EndPoint> {
    if source in a.sessions.toClient && a.sessions.toClient[source] != key
    then Agent(a.clients - {a.sessions.toClient[source]}, Destroy(a.sessions, source))
    else a
  }

  function CreateClientStep<EndPoint>(a: Agent<EndPoint>, source: EndPoint, rep: Representation): Agent<EndPoint> {
    var e := Evict(a, source, rep.key);
    Agent(CreateClients(e.clients, rep),
          if Accepted(rep) then Establish(e.sessions, source, rep.key, rep.sessionId) else e.sessions)
  }

  // process_input_packet: which client a packet is for, from its header and its source.
  function Resolve<EndPoint>(a: Agent<EndPoint>, source: EndPoint, sessionId: SessionId, headerKey: ClientKey)
    : ClientKey
  {
    if HasSessionClientKey(sessionId) then headerKey
    else if source in a.sessions.toClient then a.sessions.toClient[source]
    else CLIENTKEY_INVALID
  }

  // No client is ever stored under the invalid key.
  ghost predicate Consistent<EndPoint>(a: Agent<EndPoint>) {
    Sessions.Consistent(a.sessions) && CLIENTKEY_INVALID !in a.clients
  }

  lemma CreateClientKeepsConsistent<EndPoint>(a: Agent<EndPoint>, source: EndPoint, rep: Representation)
    requires Consistent(a)
    ensures Consistent(CreateClientStep(a, source, rep))
  {
  }

  /** What a successful CREATE_CLIENT from a source establishes: the source resolves to the new key
      exactly when the session id leaves the key out of the header, and to nothing otherwise; the
      new key resolves to the source; a different client the source resolved to before is gone. */
  lemma CreateClientResolves<EndPoint>(a: Agent<EndPoint>, source: EndPoint, rep: Representation)
    requires Consistent(a) && Accepted(rep)
    ensures var b := CreateClientStep(a, source, rep);
            && rep.key in b.clients && b.clients[rep.key].sessionId == rep.sessionId
            && (rep.sessionId >= 128 ==> source in b.sessions.toClient && b.sessions.toClient[source] == rep.key)
            && (rep.sessionId < 128 ==> source !in b.sessions.toClient)
            && rep.key in b.sessions.toEndPoint && b.sessions.toEndPoint[rep.key] == source
            && (source in a.sessions.toClient && a.sessions.toClient[source] != rep.key
                ==> a.sessions.toClient[source] !in b.clients)
  {
  }

  /** What it leaves alone: every other client stays as it was, and so does the resolution of every
      other source, except one that resolved to the same key from elsewhere. */
  lemma CreateClientFrame<EndPoint>(a: Agent<EndPoint>, source: EndPoint, rep: Representation,
                                    key: ClientKey, ep: EndPoint)
    requires Consistent(a)
    requires key != rep.key && !(source in a.sessions.toClient && a.sessions.toClient[source] == key)
    requires ep != source
    ensures var b := CreateClientStep(a, source, rep);
            && (key in b.clients <==> key in a.clients) && (key in a.clients ==> b.clients[key] == a.clients[key])
            && (key in b.sessions.toEndPoint <==> key in a.sessions.toEndPoint)
            && (key in a.sessions.toEndPoint ==> b.sessions.toEndPoint[key] == a.sessions.toEndPoint[key])
            && (ep in b.sessions.toClient
                ==> ep in a.sessions.toClient && b.sessions.toClient[ep] == a.sessions.toClient[ep])
            && (ep in a.sessions.toClient && ep !in b.sessions.toClient
                ==> rep.key in a.sessions.toEndPoint && a.sessions.toEndPoint[rep.key] == ep)
  {
  }

  /** What becomes of the client itself: the entry a creation makes of the one it had before, whatever source it
      came from last; only another client of the source is ever deleted first. */
  lemma CreateClientKeepsOwnEntry<EndPoint>(a: Agent<EndPoint>, source: EndPoint, rep: Representation)
    requires Consistent(a)
    ensures var b := CreateClientStep(a, source, rep);
            && (Accepted(rep) ==> b.clients[rep.key] == ClientAfterCreate(a.clients, rep))
            && (!Accepted(rep) ==>
                  && (rep.key in b.clients <==> rep.key in a.clients)
                  && (rep.key in a.clients ==> b.clients[rep.key] == a.clients[rep.key]))
  {
  }

  /** A rejected CREATE_CLIENT establishes nothing; but a different client that its source resolved to is gone
      all the same, with its session. */
  lemma RejectedClientChangesLittle<EndPoint>(a: Agent<EndPoint>, source: EndPoint, rep: Representation)
    requires Consistent(a) && !Accepted(rep)
    ensures var b := CreateClientStep(a, source, rep);
            if source in a.sessions.toClient && a.sessions.toClient[source] != rep.key then
              var other := a.sessions.toClient[source];
              && b.clients == a.clients - {other}
              && b.sessions.toClient == a.sessions.toClient - {source}
              && b.sessions.toEndPoint == a.sessions.toEndPoint - {other}
            else b == a
  {
  }

  /** So a client loses its session to a request that is refused: one with a wrong version and another key, from
      the end point the client registered at. */
  lemma RefusedRequestEvicts(first: Representation, refused: Representation)
    requires Accepted(first) && first.sessionId >= 128
    requires refused == first.(key := refused.key, versionMajor := 2) && refused.key != first.key
    ensures var a := CreateClientStep(Agent(map[], Maps(map[], map[])), 7, first);
            && first.key in a.clients && TwoWay(a.sessions, first.key)
            && CreateClientStep(a, 7, refused) == Agent(map[], Maps(map[], map[]))
  {
  }

  /** The next packet of the session just created reaches the client just created, whether it
      carries the key in its header or is recognised by its source. */
  lemma CreatedClientIsReached<EndPoint>(a: Agent<EndPoint>, source: EndPoint, rep: Representation,
                                         headerKey: ClientKey)
    requires Consistent(a) && Accepted(rep)
    requires HasSessionClientKey(rep.sessionId) ==> headerKey == rep.key
    ensures var b := CreateClientStep(a, source, rep);
            var key := Resolve(b, source, rep.sessionId, headerKey);
            key == rep.key && key in b.clients
  {
  }

  /** A packet without a key from a source that resolves to nothing reaches no client. */
  lemma UnknownSourceReachesNobody<EndPoint>(a: Agent<EndPoint>, source: EndPoint, sessionId: SessionId,
                                             headerKey: ClientKey)
    requires Consistent(a) && sessionId >= 128
    ensures Resolve(a, source, sessionId, headerKey) in a.clients ==>
              && source in a.sessions.toClient
              && a.sessions.toEndPoint[a.sessions.toClient[source]] == source
  {
  }

  /** DELETE of the client itself, sent by the client `key` from `source`. */
  function DeleteClientStep<EndPoint>(a: Agent<EndPoint>, source: EndPoint, key: ClientKey): Agent<EndPoint> {
    if key in a.clients then Agent(a.clients - {key}, Destroy(a.sessions, source)) else a
  }

  /** Deleting a client keeps the maps consistent and frees its source, but clears the way back
      from the key exactly when the source was registered for that key: a client that carries its
      key in the header leaves its end point behind. */
  lemma DeleteClientResolves<EndPoint>(a: Agent<EndPoint>, source: EndPoint, key: ClientKey)
    requires Consistent(a) && key in a.clients
    ensures var b := DeleteClientStep(a, source, key);
            && Consistent(b)
            && key !in b.clients && source !in b.sessions.toClient
            && (key in b.sessions.toEndPoint
                <==> key in a.sessions.toEndPoint
                     && !(source in a.sessions.toClient && a.sessions.toClient[source] == key))
  {
  }

  /** What a DELETE leaves alone: every other client stays in the table, and one that its end point reached
      both ways is still reached so exactly when it is not the one registered at the source. */
  lemma DeleteClientFrame<EndPoint>(a: Agent<EndPoint>, source: EndPoint, key: ClientKey, other: ClientKey)
    requires Consistent(a) && key in a.clients && other != key
    ensures var b := DeleteClientStep(a, source, key);
            && (other in b.clients <==> other in a.clients)
            && (other in a.clients ==> b.clients[other] == a.clients[other])
            && (TwoWay(a.sessions, other) ==>
                  (TwoWay(b.sessions, other)
                   <==> !(source in a.sessions.toClient && a.sessions.toClient[source] == other)))
  {
  }

  /** A client that carries its key in the header leaves its end point behind when it is deleted: the
      sender keeps an address for a client that is gone. */
  lemma KeyedClientLeavesItsEndPoint(rep: Representation)
    requires Accepted(rep) && rep.sessionId < 128
    ensures var a := CreateClientStep(Agent(map[], Maps(map[], map[])), 7, rep);
            var b := DeleteClientStep(a, 7, rep.key);
            && b.clients == map[]
            && b.sessions == Maps(map[], map[rep.key := 7])
  {
  }

  /** Deleting a keyed client from an end point where another client is registered takes that client's
      session and leaves it in the table. Two accepted creations from one end point lead there. */
  lemma DeleteTakesAnotherSession(keyed: Representation, keyless: Representation)
    requires Accepted(keyed) && Accepted(keyless) && keyed.key != keyless.key
    requires keyed.sessionId < 128 <= keyless.sessionId
    ensures var a := CreateClientStep(CreateClientStep(Agent(map[], Maps(map[], map[])), 7, keyed), 7, keyless);
            var b := DeleteClientStep(a, 7, keyed.key);
            && TwoWay(a.sessions, keyless.key)
            && keyless.key in b.clients && 7 !in b.sessions.toClient && keyless.key !in b.sessions.toEndPoint
  {
  }

  class Processor<EndPoint(==)> {
    const root: Root
    const sessions: SessionManager<EndPoint>

    constructor (root: Root, sessions: SessionManager<EndPoint>)
      ensures this.root == root && this.sessions == sessions
    {
      this.root, this.sessions := root, sessions;
    }

    ghost function Abs(): Agent<EndPoint>
      reads this, root, sessions
    {
      Agent(root.clients, sessions.Abs())
    }

    /** payload is None when the submessage does not deserialize. The status is what the
        STATUS_AGENT reply carries; there is no reply when the result is false. */
    method ProcessCreateClient(headerSession: SessionId, source: EndPoint, payload: Option<Representation>)
      returns (ok: bool, status: Option<Status>)
      requires root.Valid()
      modifies root, sessions
      ensures root.Valid()
      ensures ok == ((headerSession == 0x00 || headerSession == 0x80) && payload.Some?)
      ensures ok ==>
                && status == Some(CreateStatus(payload.value))
                && Abs() == CreateClientStep(old(Abs()), source, payload.value)
      ensures !ok ==> status == None && Abs() == old(Abs())
    {
      ok, status := true, None;
      if NoneSession(headerSession) && payload.Some? {
        var rep := payload.value;
        var known := sessions.GetClientKey(source);
        if known.Some? && rep.key != known.value {
          var deleted := root.DeleteClient(known.value);
          if deleted == StatusOk || deleted == ErrUnknownReference {
            sessions.DestroySession(source);
          } else {
            ok := false;
          }
        }
        if ok {
          var result := root.CreateClient(rep);
          if result == StatusOk {
            sessions.EstablishSession(source, rep.key, rep.sessionId);
          }
          status := Some(result);
        }
      } else {
        ok := false;
      }
    }

    // The branch of process_delete_submessage for an object id of kind CLIENT.
    method ProcessDeleteClient(source: EndPoint, key: ClientKey) returns (status: Status)
      requires root.Valid()
      modifies root, sessions
      ensures root.Valid()
      ensures status == if key in old(root.clients) then StatusOk else ErrUnknownReference
      ensures Abs() == DeleteClientStep(old(Abs()), source, key)
      ensures status != StatusOk ==> Abs() == old(Abs())
    {
      status := root.DeleteClient(key);
      if StatusOk == status {
        sessions.DestroySession(source);
      } else {
        assert root.clients == old(root.clients);
      }
    }
  }
}
