/** The two maps between transport end points and client keys. */
module Sessions {
  import opened Words
  import opened XrceIds
  import opened Roots

  // endpoint_to_client_map_ and client_to_endpoint_map_.
  datatype Maps<EndPoint(==)> = Maps(toClient: map<EndPoint, ClientKey>, toEndPoint: map<ClientKey, EndPoint>)

  predicate HasSessionClientKey(sessionId: SessionId) {
    128 > sessionId
  }

  function Establish<EndPoint>(m: Maps<EndPoint>, ep: EndPoint, key: ClientKey, sessionId: SessionId): Maps<EndPoint> {
    var cleared := if key in m.toEndPoint then m.toClient - {m.toEndPoint[key]} else m.toClient;
    Maps(if HasSessionClientKey(sessionId) then cleared else cleared[ep := key], m.toEndPoint[key := ep])
  }

  function Destroy<EndPoint>(m: Maps<EndPoint>, ep: EndPoint): Maps<EndPoint> {
    if ep in m.toClient then Maps(m.toClient - {ep}, m.toEndPoint - {m.toClient[ep]}) else m
  }

  /** An end point that resolves to a key is the one that key resolves to. */
  ghost predicate Consistent<EndPoint>(m: Maps<EndPoint>) {
    forall ep :: ep in m.toClient ==> m.toClient[ep] in m.toEndPoint && m.toEndPoint[m.toClient[ep]] == ep
  }

  datatype Event<EndPoint> =
    | Establishing(ep: EndPoint, key: ClientKey, sessionId: SessionId)
    | Destroying(ep: EndPoint)

  function Step<EndPoint>(m: Maps<EndPoint>, e: Event<EndPoint>): Maps<EndPoint> {
    match e
    case Establishing(ep, key, sessionId) => Establish(m, ep, key, sessionId)
    case Destroying(ep) => Destroy(m, ep)
  }

  function Run<EndPoint>(m: Maps<EndPoint>, events: seq<Event<EndPoint>>): Maps<EndPoint>
    decreases |events|
  {
    if events == [] then m else Run(Step(m, events[0]), events[1..])
  }

  lemma EstablishKeepsConsistent<EndPoint>(m: Maps<EndPoint>, ep: EndPoint, key: ClientKey, sessionId: SessionId)
    requires Consistent(m)
    ensures Consistent(Establish(m, ep, key, sessionId))
  {
  }

  lemma DestroyKeepsConsistent<EndPoint>(m: Maps<EndPoint>, ep: EndPoint)
    requires Consistent(m)
    ensures Consistent(Destroy(m, ep))
  {
  }

  lemma StepKeepsConsistent<EndPoint>(m: Maps<EndPoint>, e: Event<EndPoint>)
    requires Consistent(m)
    ensures Consistent(Step(m, e))
  {
    match e
    case Establishing(ep, key, sessionId) => EstablishKeepsConsistent(m, ep, key, sessionId);
    case Destroying(ep) => DestroyKeepsConsistent(m, ep);
  }

  lemma {:induction false} RunKeepsConsistent<EndPoint>(m: Maps<EndPoint>, events: seq<Event<EndPoint>>)
    requires Consistent(m)
    ensures Consistent(Run(m, events))
    decreases |events|
  {
    if events != [] {
      StepKeepsConsistent(m, events[0]);
      RunKeepsConsistent(Step(m, events[0]), events[1..]);
    }
  }

  /** In every state the two operations can reach, going from an end point to its key and back is
      the identity, so no two end points resolve to the same key. */
  lemma EndPointsResolveUniquely<EndPoint>(events: seq<Event<EndPoint>>, a: EndPoint, b: EndPoint)
    requires var m := Run(Maps(map[], map[]), events); a in m.toClient && b in m.toClient
    ensures var m := Run(Maps(map[], map[]), events);
            && m.toClient[a] in m.toEndPoint && m.toEndPoint[m.toClient[a]] == a
            && (m.toClient[a] == m.toClient[b] ==> a == b)
  {
    var empty: Maps<EndPoint> := Maps(map[], map[]);
    RunKeepsConsistent(empty, events);
  }

  // ---------------------------------------------------------------- from key to end point and back

  // The key resolves to an end point that resolves to the key.
  predicate TwoWay<EndPoint>(m: Maps<EndPoint>, key: ClientKey) {
    key in m.toEndPoint && m.toEndPoint[key] in m.toClient && m.toClient[m.toEndPoint[key]] == key
  }

  // The event establishes a session of this key.
  predicate Establishes<EndPoint>(e: Event<EndPoint>, key: ClientKey) {
    e.Establishing? && e.key == key
  }

  /** The event takes the way back from a two-way key: it destroys the key's end point, or it establishes
      another client, which then has the end point for itself, or had it already and gives it up. */
  predicate Strips<EndPoint>(m: Maps<EndPoint>, e: Event<EndPoint>, key: ClientKey)
    requires key in m.toEndPoint
  {
    var at := m.toEndPoint[key];
    match e
    case Destroying(ep) => ep == at
    case Establishing(ep, other, sessionId) =>
      other != key && ((other in m.toEndPoint && m.toEndPoint[other] == at) || (sessionId >= 128 && ep == at))
  }

  /** Exactly when establishing another client keeps a key two-way. */
  lemma EstablishKeepsOtherTwoWayIff<EndPoint>(m: Maps<EndPoint>, ep: EndPoint, other: ClientKey,
                                               sessionId: SessionId, key: ClientKey)
    requires Consistent(m) && TwoWay(m, key) && other != key
    ensures TwoWay(Establish(m, ep, other, sessionId), key)
            <==> !(other in m.toEndPoint && m.toEndPoint[other] == m.toEndPoint[key])
                 && !(sessionId >= 128 && ep == m.toEndPoint[key])
  {
  }

  /** One step, exactly: establishing the key makes it two-way iff the session id leaves the key out of the
      header; any other event leaves it two-way iff it was and the event does not strip it. */
  lemma StepTwoWayIff<EndPoint>(m: Maps<EndPoint>, e: Event<EndPoint>, key: ClientKey)
    requires Consistent(m)
    ensures TwoWay(Step(m, e), key)
            <==> if Establishes(e, key) then e.sessionId >= 128 else TwoWay(m, key) && !Strips(m, e, key)
  {
  }

  // No event establishes the key anew or strips it.
  ghost predicate Undisturbed<EndPoint>(m: Maps<EndPoint>, events: seq<Event<EndPoint>>, key: ClientKey)
    decreases |events|
  {
    events != [] ==>
      && !Establishes(events[0], key)
      && (key in m.toEndPoint ==> !Strips(m, events[0], key))
      && Undisturbed(Step(m, events[0]), events[1..], key)
  }

  lemma {:induction false} TwoWayWhileUndisturbed<EndPoint>(m: Maps<EndPoint>, events: seq<Event<EndPoint>>,
                                                            key: ClientKey)
    requires Consistent(m) && forall i :: 0 <= i < |events| ==> !Establishes(events[i], key)
    ensures TwoWay(Run(m, events), key) <==> TwoWay(m, key) && Undisturbed(m, events, key)
    decreases |events|
  {
    if events != [] {
      StepKeepsConsistent(m, events[0]);
      StepTwoWayIff(m, events[0], key);
      TwoWayWhileUndisturbed(Step(m, events[0]), events[1..], key);
    }
  }

  lemma {:induction false} RunSplits<EndPoint>(m: Maps<EndPoint>, events: seq<Event<EndPoint>>, n: nat)
    requires n <= |events|
    ensures Run(m, events) == Run(Run(m, events[..n]), events[n..])
    decreases n
  {
    if n == 0 {
      assert events[0..] == events;
    } else {
      assert events[..n][1..] == events[1..][..n - 1];
      RunSplits(Step(m, events[0]), events[1..], n - 1);
    }
  }

  // The last session established for the key.
  ghost predicate LastEstablished<EndPoint>(events: seq<Event<EndPoint>>, i: nat, key: ClientKey) {
    && i < |events| && Establishes(events[i], key)
    && forall j :: i < j < |events| ==> !Establishes(events[j], key)
  }

  /** Over whole runs, exactly: a key that was ever established goes to its end point and back iff its last
      session leaves the key out of the header and no later event strips it. */
  lemma TwoWayOverRunsIff<EndPoint>(events: seq<Event<EndPoint>>, i: nat, key: ClientKey)
    requires LastEstablished(events, i, key)
    ensures TwoWay(Run(Maps(map[], map[]), events), key)
            <==> events[i].sessionId >= 128
                 && Undisturbed(Run(Maps(map[], map[]), events[..i + 1]), events[i + 1..], key)
  {
    var empty: Maps<EndPoint> := Maps(map[], map[]);
    var before := Run(empty, events[..i]);
    RunSplits(empty, events, i + 1);
    RunSplits(empty, events[..i + 1], i);
    assert events[..i + 1][..i] == events[..i] && events[..i + 1][i..] == [events[i]];
    assert [events[i]][1..] == [];
    assert Run(before, [events[i]]) == Run(Step(before, events[i]), []);
    RunKeepsConsistent(empty, events[..i]);
    RunKeepsConsistent(empty, events[..i + 1]);
    StepTwoWayIff(before, events[i], key);
    TwoWayWhileUndisturbed(Run(empty, events[..i + 1]), events[i + 1..], key);
  }

  /** A key that was never established resolves to nothing. */
  lemma {:induction false} NeverEstablished<EndPoint>(m: Maps<EndPoint>, events: seq<Event<EndPoint>>, key: ClientKey)
    requires key !in m.toEndPoint && forall i :: 0 <= i < |events| ==> !Establishes(events[i], key)
    ensures key !in Run(m, events).toEndPoint
    decreases |events|
  {
    if events != [] {
      NeverEstablished(Step(m, events[0]), events[1..], key);
    }
  }

  /** The converse direction is not kept: re-establishing a client that carries its key in the header
      can strip another client of its only reverse entry. */
  lemma KeysMayLoseTheirEndPoint(first: ClientKey, second: ClientKey)
    requires first != second
    ensures var m := Run(Maps(map[], map[]),
                         [Establishing(7, first, 1), Establishing(7, second, 129), Establishing(8, first, 1)]);
            && second in m.toEndPoint && m.toEndPoint[second] == 7
            && 7 !in m.toClient && !TwoWay(m, second)
  {
    var empty: Maps<int> := Maps(map[], map[]);
    var events := [Establishing(7, first, 1), Establishing(7, second, 129), Establishing(8, first, 1)];
    var m1 := Establish(empty, 7, first, 1);
    var m2 := Establish(m1, 7, second, 129);
    var m3 := Establish(m2, 8, first, 1);
    assert events[1..] == [Establishing(7, second, 129), Establishing(8, first, 1)];
    assert events[1..][1..] == [Establishing(8, first, 1)];
    assert events[1..][1..][1..] == [];
    assert Run(m2, events[1..][1..]) == Run(m3, []) == m3;
    assert Run(m1, events[1..]) == m3;
    assert Run(empty, events) == m3;
  }

  class SessionManager<EndPoint(==)> {
    var toClient: map<EndPoint, ClientKey>
    var toEndPoint: map<ClientKey, EndPoint>

    ghost function Abs(): Maps<EndPoint>
      reads this
    {
      Maps(toClient, toEndPoint)
    }

    constructor ()
      ensures Abs() == Maps(map[], map[])
    {
      toClient, toEndPoint := map[], map[];
    }

    method EstablishSession(ep: EndPoint, key: ClientKey, sessionId: SessionId)
      modifies this
      ensures Abs() == Establish(old(Abs()), ep, key, sessionId)
    {
      if key in toEndPoint {
        toClient := toClient - {toEndPoint[key]};
        toEndPoint := toEndPoint[key := ep];
      } else {
        toEndPoint := toEndPoint[key := ep];
      }
      if !HasSessionClientKey(sessionId) {
        toClient := toClient[ep := key];
      }
    }

    method DestroySession(ep: EndPoint)
      modifies this
      ensures Abs() == Destroy(old(Abs()), ep)
    {
      if ep in toClient {
        toEndPoint := toEndPoint - {toClient[ep]};
        toClient := toClient - {ep};
      }
    }

    method GetClientKey(ep: EndPoint) returns (key: Option<ClientKey>)
      ensures key == if ep in toClient then Some(toClient[ep]) else None
    {
      key := if ep in toClient then Some(toClient[ep]) else None;
    }

    method GetEndPoint(key: ClientKey) returns (ep: Option<EndPoint>)
      ensures ep == if key in toEndPoint then Some(toEndPoint[key]) else None
    {
      ep := if key in toEndPoint then Some(toEndPoint[key]) else None;
    }
  }
}
