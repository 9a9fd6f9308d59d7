/** The entity tables of the embedded middleware of one client. Entities are reference counted in
    the agent; here an entity is a value, and what counts is which tables still hold it. */
module CedMiddlewares {
  import opened Words

  // Raw ids carry twelve bits.
  type RawId = x: int | 0 <= x < 4096

  // obj tells apart the participant objects created under the same raw id at different times.
  datatype Participant = Participant(obj: nat, domain: int)

  // A participant registers at most one live topic per name.
  datatype Topic = Topic(participant: Participant, name: string)

  /** participants .. readers are the six maps. A publisher or subscriber holds its participant, a data
      writer or reader its topic. registered is the union of the participants' topic registers. */
  datatype Ced = Ced(
    participants: map<RawId, Participant>,
    topics: map<RawId, Topic>,
    publishers: map<RawId, Participant>,
    subscribers: map<RawId, Participant>,
    writers: map<RawId, Topic>,
    readers: map<RawId, Topic>,
    registered: set<Topic>,
    nextObj: nat)

  const EMPTY := Ced(map[], map[], map[], map[], map[], map[], {}, 0)

  const TOPIC_SUFFIX := "__t"
  const DATAWRITER_SUFFIX := "__dw"
  const DATAREADER_SUFFIX := "__dr"

  // ---------------------------------------------------------------- references and names

  predicate OccursAt(s: string, mark: string, i: nat) {
    i + |mark| <= |s| && s[i..i + |mark|] == mark
  }

  // std::string::find, or the length when the mark does not occur.
  function Find(s: string, mark: string, from: nat): (i: nat)
    requires from <= |s|
    ensures from <= i <= |s|
    ensures forall j :: from <= j < i ==> !OccursAt(s, mark, j)
    ensures i < |s| ==> OccursAt(s, mark, i)
    decreases |s| - from
  {
    if from == |s| || OccursAt(s, mark, from) then from else Find(s, mark, from + 1)
  }

  // ref.substr(0, ref.find(mark)): everything from the first occurrence of the mark on is cut.
  function StripSuffix(ref: string, mark: string): string {
    ref[..Find(ref, mark, 0)]
  }

  /** A name with one of the three suffixes strips back to itself exactly when the suffix does not
      already occur inside it, so a topic, its writers and its readers meet under such a name. */
  lemma SuffixedNamesMeet(name: string, mark: string)
    requires mark in {TOPIC_SUFFIX, DATAWRITER_SUFFIX, DATAREADER_SUFFIX}
    ensures StripSuffix(name + mark, mark) == name <==> forall i: nat :: !OccursAt(name, mark, i)
  {
    hide OccursAt;
    var s := name + mark;
    var k := Find(s, mark, 0);
    MarkOccursAtItsPlace(name, mark);
    assert k <= |name|;
    if k < |name| {
      MarkDoesNotOverlap(name, mark, k);
      SameOccurrence(name, mark, k);
    } else {
      assert s[..k] == name;
      forall i: nat ensures !OccursAt(name, mark, i) {
        SameOccurrence(name, mark, i);
      }
    }
  }

  /** Stripping cuts a reference at the first place its suffix occurs, and leaves it whole when there is none. */
  lemma StripCutsAtFirst(ref: string, mark: string)
    requires mark != ""
    ensures var name := StripSuffix(ref, mark);
            && name <= ref
            && (forall i: nat :: i < |name| ==> !OccursAt(ref, mark, i))
            && (if exists i: nat :: OccursAt(ref, mark, i) then OccursAt(ref, mark, |name|) else name == ref)
  {
    var k := Find(ref, mark, 0);
    if k == |ref| {
      forall i: nat ensures !OccursAt(ref, mark, i) {
        assert OccursAt(ref, mark, i) ==> i < |ref|;
      }
      assert ref[..k] == ref;
    }
  }

  lemma MarkOccursAtItsPlace(name: string, mark: string)
    ensures OccursAt(name + mark, mark, |name|)
  {
  }

  lemma SameOccurrence(name: string, mark: string, i: nat)
    ensures OccursAt(name, mark, i) <==> i + |mark| <= |name| && OccursAt(name + mark, mark, i)
    ensures OccursAt(name, mark, i) ==> i <= |name|
  {
  }

  // Only the first two characters of a mark are underscores.
  lemma MarkDoesNotOverlap(name: string, mark: string, k: nat)
    requires mark in {TOPIC_SUFFIX, DATAWRITER_SUFFIX, DATAREADER_SUFFIX}
    requires k < |name| && OccursAt(name + mark, mark, k)
    ensures k + |mark| <= |name|
  {
    var s := name + mark;
    assert s[|name|] == mark[0] && s[|name| + 1] == mark[1];
    var m := s[k..k + |mark|];
    assert s[k] == m[0] && s[k + 1] == m[1] && s[k + 2] == m[2];
    assert |mark| == 4 ==> s[k + 3] == m[3];
  }

  // ---------------------------------------------------------------- create, delete, match

  function CreateParticipant(c: Ced, id: RawId, domain: int): Option<Ced> {
    if id in c.participants then None
    else Some(c.(participants := c.participants[id := Participant(c.nextObj, domain)], nextObj := c.nextObj + 1))
  }

  // Takes the participant's live topic of that name, or makes and registers one.
  function CreateTopic(c: Ced, id: RawId, participantId: RawId, ref: string): Option<Ced> {
    if participantId !in c.participants || id in c.topics then None
    else
      var t := Topic(c.participants[participantId], StripSuffix(ref, TOPIC_SUFFIX));
      Some(c.(topics := c.topics[id := t], registered := c.registered + {t}))
  }

  function CreatePublisher(c: Ced, id: RawId, participantId: RawId): Option<Ced> {
    if participantId !in c.participants || id in c.publishers then None
    else Some(c.(publishers := c.publishers[id := c.participants[participantId]]))
  }

  function CreateSubscriber(c: Ced, id: RawId, participantId: RawId): Option<Ced> {
    if participantId !in c.participants || id in c.subscribers then None
    else Some(c.(subscribers := c.subscribers[id := c.participants[participantId]]))
  }

  // A data writer needs a topic of the stripped name, still live, under its publisher's participant.
  function CreateWriter(c: Ced, id: RawId, publisherId: RawId, ref: string): Option<Ced> {
    if publisherId !in c.publishers || id in c.writers then None
    else
      var t := Topic(c.publishers[publisherId], StripSuffix(ref, DATAWRITER_SUFFIX));
      if t in c.registered then Some(c.(writers := c.writers[id := t])) else None
  }

  function CreateReader(c: Ced, id: RawId, subscriberId: RawId, ref: string): Option<Ced> {
    if subscriberId !in c.subscribers || id in c.readers then None
    else
      var t := Topic(c.subscribers[subscriberId], StripSuffix(ref, DATAREADER_SUFFIX));
      if t in c.registered then Some(c.(readers := c.readers[id := t])) else None
  }

  predicate Referenced(c: Ced, t: Topic) {
    t in c.topics.Values || t in c.writers.Values || t in c.readers.Values
  }

  // A topic leaves its participant's register with its last holder.
  function DropTopic(c: Ced, t: Topic): Ced {
    if Referenced(c, t) then c else c.(registered := c.registered - {t})
  }

  function DeleteParticipant(c: Ced, id: RawId): Ced {
    c.(participants := c.participants - {id})
  }

  function DeleteTopic(c: Ced, id: RawId): Ced {
    if id in c.topics then DropTopic(c.(topics := c.topics - {id}), c.topics[id]) else c
  }

  function DeletePublisher(c: Ced, id: RawId): Ced {
    c.(publishers := c.publishers - {id})
  }

  function DeleteSubscriber(c: Ced, id: RawId): Ced {
    c.(subscribers := c.subscribers - {id})
  }

  function DeleteWriter(c: Ced, id: RawId): Ced {
    if id in c.writers then DropTopic(c.(writers := c.writers - {id}), c.writers[id]) else c
  }

  function DeleteReader(c: Ced, id: RawId): Ced {
    if id in c.readers then DropTopic(c.(readers := c.readers - {id}), c.readers[id]) else c
  }

  predicate MatchedParticipant(c: Ced, id: RawId, domain: int) {
    id in c.participants && domain == c.participants[id].domain
  }

  predicate MatchedTopic(c: Ced, id: RawId, ref: string) {
    id in c.topics && StripSuffix(ref, TOPIC_SUFFIX) == c.topics[id].name
  }

  predicate MatchedWriter(c: Ced, id: RawId, ref: string) {
    id in c.writers && StripSuffix(ref, DATAWRITER_SUFFIX) == c.writers[id].name
  }

  predicate MatchedReader(c: Ced, id: RawId, ref: string) {
    id in c.readers && StripSuffix(ref, DATAREADER_SUFFIX) == c.readers[id].name
  }

  /** The registers list exactly the topics that some topic, data writer or data reader still holds. */
  ghost predicate RegisterIsExact(c: Ced) {
    c.registered == c.topics.Values + c.writers.Values + c.readers.Values
  }

  lemma ValuesOfUpdate(m: map<RawId, Topic>, id: RawId, t: Topic)
    requires id !in m
    ensures m[id := t].Values == m.Values + {t}
  {
    var m' := m[id := t];
    forall v | v in m.Values + {t} ensures v in m'.Values {
      if v in m.Values {
        var k :| k in m && m[k] == v;
        assert m'[k] == v;
      } else {
        assert m'[id] == v;
      }
    }
  }

  lemma ValuesOfRemoval(m: map<RawId, Topic>, id: RawId)
    requires id in m
    ensures m.Values == (m - {id}).Values + {m[id]}
  {
    var m' := m - {id};
    forall v | v in m.Values ensures v in m'.Values + {m[id]} {
      var k :| k in m && m[k] == v;
      if k != id {
        assert k in m' && m'[k] == v;
      }
    }
  }

  lemma CreateTopicKeepsRegister(c: Ced, id: RawId, parent: RawId, ref: string)
    requires RegisterIsExact(c) && CreateTopic(c, id, parent, ref).Some?
    ensures RegisterIsExact(CreateTopic(c, id, parent, ref).value)
  {
    ValuesOfUpdate(c.topics, id, Topic(c.participants[parent], StripSuffix(ref, TOPIC_SUFFIX)));
  }

  lemma CreateWriterKeepsRegister(c: Ced, id: RawId, parent: RawId, ref: string)
    requires RegisterIsExact(c) && CreateWriter(c, id, parent, ref).Some?
    ensures RegisterIsExact(CreateWriter(c, id, parent, ref).value)
  {
    ValuesOfUpdate(c.writers, id, Topic(c.publishers[parent], StripSuffix(ref, DATAWRITER_SUFFIX)));
  }

  lemma CreateReaderKeepsRegister(c: Ced, id: RawId, parent: RawId, ref: string)
    requires RegisterIsExact(c) && CreateReader(c, id, parent, ref).Some?
    ensures RegisterIsExact(CreateReader(c, id, parent, ref).value)
  {
    ValuesOfUpdate(c.readers, id, Topic(c.subscribers[parent], StripSuffix(ref, DATAREADER_SUFFIX)));
  }

  lemma DeleteTopicKeepsRegister(c: Ced, id: RawId)
    requires RegisterIsExact(c)
    ensures RegisterIsExact(DeleteTopic(c, id))
  {
    hide StripSuffix;
    if id in c.topics {
      ValuesOfRemoval(c.topics, id);
    }
  }

  lemma DeleteWriterKeepsRegister(c: Ced, id: RawId)
    requires RegisterIsExact(c)
    ensures RegisterIsExact(DeleteWriter(c, id))
  {
    hide StripSuffix;
    if id in c.writers {
      ValuesOfRemoval(c.writers, id);
    }
  }

  lemma DeleteReaderKeepsRegister(c: Ced, id: RawId)
    requires RegisterIsExact(c)
    ensures RegisterIsExact(DeleteReader(c, id))
  {
    hide StripSuffix;
    if id in c.readers {
      ValuesOfRemoval(c.readers, id);
    }
  }

  // ---------------------------------------------------------------- deletions undo creations

  lemma RemovalUndoesUpdate<V>(m: map<RawId, V>, id: RawId, v: V)
    requires id !in m
    ensures m[id := v] - {id} == m
    ensures (m[id := v]).Keys == m.Keys + {id}
  {
  }

  lemma KeysOfRemoval<V>(m: map<RawId, V>, id: RawId)
    ensures (m - {id}).Keys == m.Keys - {id}
  {
  }

  lemma DropTopicKeepsMaps(c: Ced, t: Topic)
    ensures DropTopic(c, t).(registered := c.registered) == c
  {
  }

  lemma DeleteUndoesCreateTopic(c: Ced, id: RawId, parent: RawId, ref: string)
    requires CreateTopic(c, id, parent, ref).Some?
    ensures DeleteTopic(CreateTopic(c, id, parent, ref).value, id).(registered := c.registered) == c
  {
    hide DropTopic;
    var t := Topic(c.participants[parent], StripSuffix(ref, TOPIC_SUFFIX));
    RemovalUndoesUpdate(c.topics, id, t);
    DropTopicKeepsMaps(c.(registered := c.registered + {t}), t);
  }

  lemma DeleteUndoesCreateWriter(c: Ced, id: RawId, parent: RawId, ref: string)
    requires CreateWriter(c, id, parent, ref).Some?
    ensures DeleteWriter(CreateWriter(c, id, parent, ref).value, id).(registered := c.registered) == c
  {
    hide DropTopic;
    var t := Topic(c.publishers[parent], StripSuffix(ref, DATAWRITER_SUFFIX));
    RemovalUndoesUpdate(c.writers, id, t);
    DropTopicKeepsMaps(c, t);
  }

  lemma DeleteUndoesCreateReader(c: Ced, id: RawId, parent: RawId, ref: string)
    requires CreateReader(c, id, parent, ref).Some?
    ensures DeleteReader(CreateReader(c, id, parent, ref).value, id).(registered := c.registered) == c
  {
    hide DropTopic;
    var t := Topic(c.subscribers[parent], StripSuffix(ref, DATAREADER_SUFFIX));
    RemovalUndoesUpdate(c.readers, id, t);
    DropTopicKeepsMaps(c, t);
  }

  // ---------------------------------------------------------------- the middleware object

  class CedMiddleware {
    var participants: map<RawId, Participant>
    var topics: map<RawId, Topic>
    var publishers: map<RawId, Participant>
    var subscribers: map<RawId, Participant>
    var writers: map<RawId, Topic>
    var readers: map<RawId, Topic>
    var registered: set<Topic>
    var nextObj: nat

    ghost function Abs(): Ced
      reads this
    {
      Ced(participants, topics, publishers, subscribers, writers, readers, registered, nextObj)
    }

    constructor ()
      ensures Abs() == EMPTY
    {
      participants, topics, publishers, subscribers, writers, readers := map[], map[], map[], map[], map[], map[];
      registered, nextObj := {}, 0;
    }

    method CreateParticipantByRef(id: RawId, domain: int) returns (ok: bool)
      modifies this
      ensures ok == CreateParticipant(old(Abs()), id, domain).Some?
      ensures Abs() == if ok then CreateParticipant(old(Abs()), id, domain).value else old(Abs())
    {
      ok := false;
      if id !in participants {
        participants := participants[id := Participant(nextObj, domain)];
        nextObj := nextObj + 1;
        ok := true;
      }
    }

    method CreateTopicByRef(id: RawId, participantId: RawId, ref: string) returns (ok: bool)
      modifies this
      ensures ok == CreateTopic(old(Abs()), id, participantId, ref).Some?
      ensures Abs() == if ok then CreateTopic(old(Abs()), id, participantId, ref).value else old(Abs())
    {
      ok := false;
      if participantId in participants {
        if id !in topics {
          var topic := Topic(participants[participantId], StripSuffix(ref, TOPIC_SUFFIX));
          if topic !in registered {
            registered := registered + {topic};
          }
          assert registered == old(registered) + {topic};
          topics := topics[id := topic];
          ok := true;
        }
      }
    }

    method CreatePublisherByXml(id: RawId, participantId: RawId) returns (ok: bool)
      modifies this
      ensures ok == CreatePublisher(old(Abs()), id, participantId).Some?
      ensures Abs() == if ok then CreatePublisher(old(Abs()), id, participantId).value else old(Abs())
    {
      ok := participantId in participants && id !in publishers;
      if ok {
        publishers := publishers[id := participants[participantId]];
      }
    }

    method CreateSubscriberByXml(id: RawId, participantId: RawId) returns (ok: bool)
      modifies this
      ensures ok == CreateSubscriber(old(Abs()), id, participantId).Some?
      ensures Abs() == if ok then CreateSubscriber(old(Abs()), id, participantId).value else old(Abs())
    {
      ok := participantId in participants && id !in subscribers;
      if ok {
        subscribers := subscribers[id := participants[participantId]];
      }
    }

    method CreateDataWriterByRef(id: RawId, publisherId: RawId, ref: string) returns (ok: bool)
      modifies this
      ensures ok == CreateWriter(old(Abs()), id, publisherId, ref).Some?
      ensures Abs() == if ok then CreateWriter(old(Abs()), id, publisherId, ref).value else old(Abs())
    {
      ok := false;
      if publisherId in publishers && id !in writers {
        var topic := Topic(publishers[publisherId], StripSuffix(ref, DATAWRITER_SUFFIX));
        if topic in registered {
          writers := writers[id := topic];
          ok := true;
        }
      }
    }

    method CreateDataReaderByRef(id: RawId, subscriberId: RawId, ref: string) returns (ok: bool)
      modifies this
      ensures ok == CreateReader(old(Abs()), id, subscriberId, ref).Some?
      ensures Abs() == if ok then CreateReader(old(Abs()), id, subscriberId, ref).value else old(Abs())
    {
      ok := false;
      if subscriberId in subscribers && id !in readers {
        var topic := Topic(subscribers[subscriberId], StripSuffix(ref, DATAREADER_SUFFIX));
        if topic in registered {
          readers := readers[id := topic];
          ok := true;
        }
      }
    }

    method EraseParticipant(id: RawId)
      modifies this
      ensures Abs() == DeleteParticipant(old(Abs()), id)
    {
      participants := participants - {id};
    }

    // The destructor of a topic no table holds any more.
    method ReleaseTopic(topic: Topic)
      modifies this`registered
      ensures Abs() == DropTopic(old(Abs()), topic)
    {
      if topic !in topics.Values && topic !in writers.Values && topic !in readers.Values {
        registered := registered - {topic};
      }
    }

    method EraseTopic(id: RawId)
      modifies this
      ensures Abs() == DeleteTopic(old(Abs()), id)
    {
      if id in topics {
        var topic := topics[id];
        topics := topics - {id};
        ReleaseTopic(topic);
      }
    }

    method ErasePublisher(id: RawId)
      modifies this
      ensures Abs() == DeletePublisher(old(Abs()), id)
    {
      publishers := publishers - {id};
    }

    method EraseSubscriber(id: RawId)
      modifies this
      ensures Abs() == DeleteSubscriber(old(Abs()), id)
    {
      subscribers := subscribers - {id};
    }

    method EraseDataWriter(id: RawId)
      modifies this
      ensures Abs() == DeleteWriter(old(Abs()), id)
    {
      if id in writers {
        var topic := writers[id];
        writers := writers - {id};
        ReleaseTopic(topic);
      }
    }

    method EraseDataReader(id: RawId)
      modifies this
      ensures Abs() == DeleteReader(old(Abs()), id)
    {
      if id in readers {
        var topic := readers[id];
        readers := readers - {id};
        ReleaseTopic(topic);
      }
    }
  }
}
