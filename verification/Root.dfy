/** The agent's client table with the iterator the heartbeat loop drives through it while other
    threads create, delete and reset. */
module Roots {
  import opened Words
  import opened XrceIds

  const CLIENTKEY_INVALID: ClientKey := 0
  const XRCE_COOKIE: seq<bv8> := [0x58, 0x52, 0x43, 0x45]
  const XRCE_VERSION_MAJOR: int := 1

  datatype Status = StatusOk | ErrInvalidData | ErrIncompatible | ErrUnknownReference

  type Properties = map<string, string>

  datatype Representation = Representation(
    key: ClientKey,
    cookie: seq<bv8>,
    versionMajor: int,
    sessionId: SessionId,
    properties: Option<Properties>)

  // traffic stands for the state of the session's streams; 0 is the state of a fresh or reset session.
  datatype ProxyClient = ProxyClient(sessionId: SessionId, properties: Properties, traffic: nat)

  type Clients = map<ClientKey, ProxyClient>

  // current_client_: past the end, or at a live entry.
  datatype Cursor = End | At(key: ClientKey)

  predicate Live(clients: set<ClientKey>, c: Cursor) {
    c.At? ==> c.key in clients
  }

  predicate IsLeast(keys: set<ClientKey>, k: ClientKey) {
    k in keys && forall x :: x in keys ==> k <= x
  }

  lemma LeastExists(keys: set<ClientKey>)
    requires keys != {}
    ensures exists k :: IsLeast(keys, k)
    decreases |keys|
  {
    var x :| x in keys;
    var rest := keys - {x};
    assert forall y :: y in keys ==> y == x || y in rest;
    if rest == {} {
      assert IsLeast(keys, x);
    } else {
      LeastExists(rest);
      var m :| IsLeast(rest, m);
      assert IsLeast(keys, if x <= m then x else m);
    }
  }

  // clients_.begin()
  function Begin(keys: set<ClientKey>): (c: Cursor)
    ensures Live(keys, c)
    ensures c.End? <==> keys == {}
    ensures c.At? ==> forall x :: x in keys ==> c.key <= x
  {
    if keys == {} then End
    else
      LeastExists(keys);
      var k :| IsLeast(keys, k);
      At(k)
  }

  // ++iterator
  function After(keys: set<ClientKey>, k: ClientKey): (c: Cursor)
    ensures Live(keys, c)
    ensures c.At? ==> k < c.key
    ensures forall x :: x in keys && k < x ==> c.At? && c.key <= x
  {
    var above := set x | x in keys && k < x;
    assert forall x :: x in keys && k < x ==> x in above;
    Begin(above)
  }

  // ---------------------------------------------------------------- create_client

  predicate Accepted(rep: Representation) {
    rep.key != CLIENTKEY_INVALID && rep.cookie == XRCE_COOKIE && rep.versionMajor == XRCE_VERSION_MAJOR
  }

  function CreateStatus(rep: Representation): Status {
    if rep.key == CLIENTKEY_INVALID || rep.cookie != XRCE_COOKIE then ErrInvalidData
    else if rep.versionMajor != XRCE_VERSION_MAJOR then ErrIncompatible
    else StatusOk
  }

  // The properties a representation announces.
  function Announced(rep: Representation): Properties {
    if rep.properties.Some? then rep.properties.value else map[]
  }

  /** The entry an accepted representation leaves: a new client with its properties, the old one
      with its streams reset when the session id is the same, or, when the session id changed, a
      new client that has lost the properties. */
  function ClientAfterCreate(clients: Clients, rep: Representation): ProxyClient {
    if rep.key !in clients then
      ProxyClient(rep.sessionId, Announced(rep), 0)
    else if rep.sessionId != clients[rep.key].sessionId then ProxyClient(rep.sessionId, map[], 0)
    else clients[rep.key].(traffic := 0)
  }

  function CreateClients(clients: Clients, rep: Representation): Clients {
    if Accepted(rep) then clients[rep.key := ClientAfterCreate(clients, rep)] else clients
  }

  /** The client has the properties it announced exactly when it is new, or comes back in its old session
      with its old properties, or comes back in a new session announcing none. */
  lemma PropertiesAreAnnouncedIff(clients: Clients, rep: Representation)
    requires Accepted(rep)
    ensures CreateClients(clients, rep)[rep.key].properties == Announced(rep)
            <==> || rep.key !in clients
                 || (rep.sessionId == clients[rep.key].sessionId && clients[rep.key].properties == Announced(rep))
                 || (rep.sessionId != clients[rep.key].sessionId && Announced(rep) == map[])
  {
  }

  /** A client that comes back under a new session id, with the properties it had, has lost them. */
  lemma NewSessionLosesProperties()
    ensures var ps := map["uxr_sm" := "1"];
            var first := Representation(0xAA01, XRCE_COOKIE, 1, 0x81, Some(ps));
            var clients := CreateClients(map[], first);
            && clients == map[0xAA01 := ProxyClient(0x81, ps, 0)]
            && CreateClients(clients, first.(sessionId := 0x82)) == map[0xAA01 := ProxyClient(0x82, map[], 0)]
  {
  }

  /** Which representations are accepted, and what the others are told: a wrong key or cookie comes before a
      wrong version. */
  lemma CreationStatus(rep: Representation)
    ensures Accepted(rep) <==> CreateStatus(rep) == StatusOk
    ensures CreateStatus(rep) == StatusOk
            <==> rep.key != 0 && rep.cookie == [0x58, 0x52, 0x43, 0x45] && rep.versionMajor == 1
    ensures CreateStatus(rep) == ErrInvalidData <==> rep.key == 0 || rep.cookie != [0x58, 0x52, 0x43, 0x45]
    ensures CreateStatus(rep) in {StatusOk, ErrInvalidData, ErrIncompatible}
  {
  }

  /** Whoever is accepted starts afresh, new or returning: in the session announced, with nothing of an earlier
      session's streams; every other client stays as it was, and a refusal changes nobody. */
  lemma AcceptedClientStartsAfresh(clients: Clients, rep: Representation, other: ClientKey)
    ensures var after := CreateClients(clients, rep);
            && (CreateStatus(rep) == StatusOk ==>
                  && rep.key in after
                  && after[rep.key].sessionId == rep.sessionId && after[rep.key].traffic == 0)
            && (CreateStatus(rep) != StatusOk ==> after == clients)
            && (other != rep.key ==>
                  && (other in after <==> other in clients)
                  && (other in clients ==> after[other] == clients[other]))
  {
  }

  // ---------------------------------------------------------------- the table

  // What the iterator sees of the table, and the locked sections that any threads interleave.
  datatype Table = Table(keys: set<ClientKey>, cursor: Cursor)

  datatype Event = Insert(key: ClientKey) | Erase(key: ClientKey) | Clear | Next

  function Step(t: Table, e: Event): Table {
    match e
    case Insert(k) => t.(keys := t.keys + {k})
    case Erase(k) => Table(t.keys - {k}, if t.cursor == At(k) then After(t.keys, k) else t.cursor)
    case Clear => Table({}, End)
    case Next => t.(cursor := if t.cursor.At? then After(t.keys, t.cursor.key) else Begin(t.keys))
  }

  class Root {
    var clients: Clients
    var current: Cursor

    ghost predicate Valid()
      reads this
    {
      Live(clients.Keys, current)
    }

    ghost function Seen(): Table
      reads this
    {
      Table(clients.Keys, current)
    }

    constructor ()
      ensures Valid() && clients == map[] && current == End
    {
      clients, current := map[], End;
    }

    method CreateClient(rep: Representation) returns (status: Status)
      requires Valid()
      modifies this
      ensures Valid() && current == old(current)
      ensures status == CreateStatus(rep)
      ensures clients == CreateClients(old(clients), rep)
      ensures Seen() == if Accepted(rep) then Step(old(Seen()), Insert(rep.key)) else old(Seen())
    {
      if rep.key == CLIENTKEY_INVALID {
        return ErrInvalidData;
      }
      status := StatusOk;
      if rep.cookie == XRCE_COOKIE {
        if rep.versionMajor == XRCE_VERSION_MAJOR {
          if rep.key !in clients {
            clients := clients[rep.key := ProxyClient(rep.sessionId, Announced(rep), 0)];
          } else {
            var client := clients[rep.key];
            if rep.sessionId != client.sessionId {
              clients := clients[rep.key := ProxyClient(rep.sessionId, map[], 0)];
            } else {
              clients := clients[rep.key := client.(traffic := 0)];
            }
          }
        } else {
          status := ErrIncompatible;
        }
      } else {
        status := ErrInvalidData;
      }
    }

    // get_client: a locked section of its own, and the first step of delete_client.
    method GetClient(key: ClientKey) returns (client: Option<ProxyClient>)
      requires Valid()
      ensures client == if key in clients then Some(clients[key]) else None
    {
      client := if key in clients then Some(clients[key]) else None;
    }

    // The second locked section of delete_client; the entry may have gone, or come back, since the first.
    method EraseClient(key: ClientKey)
      requires Valid()
      modifies this
      ensures Valid()
      ensures clients == old(clients) - {key}
      ensures Seen() == Step(old(Seen()), Erase(key))
    {
      if current != End && key == current.key {
        current := After(clients.Keys, key);
      }
      clients := clients - {key};
    }

    method DeleteClient(key: ClientKey) returns (status: Status)
      requires Valid()
      modifies this
      ensures Valid()
      ensures status == if key in old(clients) then StatusOk else ErrUnknownReference
      ensures clients == old(clients) - {key}
      ensures Seen() == if key in old(clients) then Step(old(Seen()), Erase(key)) else old(Seen())
    {
      var client := GetClient(key);
      if client.Some? {
        EraseClient(key);
        status := StatusOk;
      } else {
        status := ErrUnknownReference;
      }
    }

    method GetNextClient() returns (next: Option<(ClientKey, ProxyClient)>)
      requires Valid()
      modifies this
      ensures Valid() && clients == old(clients)
      ensures next == if old(current).At? then Some((old(current).key, clients[old(current).key])) else None
      ensures Seen() == Step(old(Seen()), Next)
    {
      if current != End {
        next := Some((current.key, clients[current.key]));
        current := After(clients.Keys, current.key);
      } else {
        next := None;
        current := Begin(clients.Keys);
      }
    }

    method Reset()
      modifies this
      ensures Valid() && clients == map[]
      ensures Seen() == Step(old(Seen()), Clear)
    {
      clients := map[];
      current := Begin(clients.Keys);
    }
  }

  // ---------------------------------------------------------------- sweeps

  function Run(t: Table, events: seq<Event>): Table
    decreases |events|
  {
    if events == [] then t else Run(Step(t, events[0]), events[1..])
  }

  // The keys that get_next_client returned, in order.
  function Returned(t: Table, events: seq<Event>): seq<ClientKey>
    decreases |events|
  {
    if events == [] then []
    else
      (if events[0].Next? && t.cursor.At? then [t.cursor.key] else []) + Returned(Step(t, events[0]), events[1..])
  }

  // No call of get_next_client returned false.
  ghost predicate NoneFalse(t: Table, events: seq<Event>)
    decreases |events|
  {
    events != [] ==> (events[0].Next? ==> t.cursor.At?) && NoneFalse(Step(t, events[0]), events[1..])
  }

  // The keys present in every state of the run.
  function Throughout(t: Table, events: seq<Event>): set<ClientKey>
    decreases |events|
  {
    if events == [] then t.keys else t.keys * Throughout(Step(t, events[0]), events[1..])
  }

  ghost predicate Ascending(s: seq<ClientKey>) {
    forall i, j :: 0 <= i < j < |s| ==> s[i] < s[j]
  }

  /** The cursor is always past the end or at a live key. */
  lemma {:induction false} CursorStaysLive(t: Table, events: seq<Event>)
    requires Live(t.keys, t.cursor)
    ensures Live(Run(t, events).keys, Run(t, events).cursor)
    decreases |events|
  {
    if events != [] {
      CursorStaysLive(Step(t, events[0]), events[1..]);
    }
  }

  /** From any point of a sweep on: the keys still to be returned ascend from the cursor, and every
      key at or above the cursor that stays present is returned, unless the sweep has not ended. */
  lemma {:induction false} RestOfSweep(t: Table, events: seq<Event>)
    requires Live(t.keys, t.cursor) && NoneFalse(t, events)
    ensures var out := Returned(t, events);
            && Ascending(out)
            && (t.cursor.End? ==> out == [])
            && (forall i :: 0 <= i < |out| ==> t.cursor.At? && t.cursor.key <= out[i])
    ensures Run(t, events).cursor.End? && t.cursor.At? ==>
              forall k :: k in Throughout(t, events) && t.cursor.key <= k ==> k in Returned(t, events)
    ensures t.cursor.End? ==> Run(t, events).cursor.End?
    decreases |events|
  {
    if events != [] {
      var t', rest := Step(t, events[0]), events[1..];
      RestOfSweep(t', rest);
      if t.cursor.At? {
        assert t'.cursor.At? ==> t.cursor.key <= t'.cursor.key;
        forall k | Run(t, events).cursor.End? && k in Throughout(t, events) && t.cursor.key <= k
          ensures k in Returned(t, events)
        {
          ThroughoutIsPresent(t', rest);
          StaysAhead(t, events[0], k);
        }
      }
    }
  }

  // A key at or above the cursor that a step leaves present is returned by the step or still ahead of the cursor.
  lemma StaysAhead(t: Table, e: Event, k: ClientKey)
    requires t.cursor.At? && t.cursor.key <= k && k in t.keys && k in Step(t, e).keys
    ensures (e.Next? && k == t.cursor.key) || (Step(t, e).cursor.At? && Step(t, e).cursor.key <= k)
  {
  }

  lemma ThroughoutIsPresent(t: Table, events: seq<Event>)
    ensures Throughout(t, events) <= t.keys
  {
  }

  /** One sweep of the heartbeat loop under concurrency: from one false result of get_next_client to
      the next, with any creations, deletions and resets between, the keys returned ascend strictly
      (so none comes twice), there are at most 2^32 of them (so the loop ends), and every client
      present throughout is among them. */
  lemma Sweep(t: Table, events: seq<Event>)
    requires t.cursor.End?
    requires NoneFalse(Step(t, Next), events)
    requires Run(Step(t, Next), events).cursor.End?
    ensures var out := Returned(Step(t, Next), events);
            && Ascending(out)
            && |out| <= 0x1_0000_0000
            && forall k :: k in Throughout(Step(t, Next), events) ==> k in out
  {
    var t' := Step(t, Next);
    RestOfSweep(t', events);
    ThroughoutIsPresent(t', events);
    AscendingIsShort(Returned(t', events));
  }

  lemma {:induction false} AscendingIsShort(s: seq<ClientKey>)
    requires Ascending(s)
    ensures s != [] ==> |s| - 1 <= s[|s| - 1]
    ensures |s| <= 0x1_0000_0000
    decreases |s|
  {
    if |s| > 1 {
      AscendingIsShort(s[..|s| - 1]);
    }
  }
}
