/** A client's object table, kept against the tables of its embedded middleware under the creation
    modes of Table 7 of DDS-XRCE 1.0. The destructor of an object deletes its middleware entity. */
module ProxyClients {
  import opened Words
  import opened XrceIds
  import opened Conversions
  import opened CedMiddlewares

  // Object kinds are four bits of the object id.
  type ObjectKind = x: int | 0 <= x < 16

  datatype Format = ByReference | AsXmlString | InBinary

  /** An object representation: parent is the participant, publisher or subscriber id it names, text
      its reference or XML string, domain the domain of a participant. */
  datatype Variant = Variant(kind: ObjectKind, format: Format, text: string, parent: ObjectId, domain: int)

  datatype CreationMode = CreationMode(reuse: bool, replace: bool)

  datatype Status = StatusOk | OkMatched | ErrAlreadyExists | ErrMismatch | ErrDds | ErrUnknownReference

  datatype Tables = Tables(objects: set<ObjectId>, ced: Ced)

  const NO_OBJECTS := Tables({}, EMPTY)

  // The six kinds the embedded middleware has entities for.
  predicate HasEntity(kind: ObjectKind) {
    OBJK_PARTICIPANT <= kind <= OBJK_DATAREADER
  }

  function ParentKind(kind: ObjectKind): ObjectKind {
    if kind == OBJK_DATAWRITER then OBJK_PUBLISHER
    else if kind == OBJK_DATAREADER then OBJK_SUBSCRIBER
    else OBJK_PARTICIPANT
  }

  function ParentId(v: Variant): ObjectId {
    WithKind(v.parent, ParentKind(v.kind))
  }

  // ---------------------------------------------------------------- entities

  // X::create for the six kinds: the middleware entity, or None.
  function CreateEntity(c: Ced, raw: RawId, v: Variant): Option<Ced> {
    var parent := ObjectIdToRaw(v.parent);
    if v.kind == OBJK_PARTICIPANT then
      if v.format.InBinary? then None else CreateParticipant(c, raw, v.domain)
    else if v.kind == OBJK_TOPIC then
      if v.format.InBinary? then None else CreateTopic(c, raw, parent, v.text)
    else if v.kind == OBJK_PUBLISHER then
      if v.format.AsXmlString? then CreatePublisher(c, raw, parent) else None
    else if v.kind == OBJK_SUBSCRIBER then
      if v.format.AsXmlString? then CreateSubscriber(c, raw, parent) else None
    else if v.kind == OBJK_DATAWRITER then
      if v.format.InBinary? then None else CreateWriter(c, raw, parent, v.text)
    else if v.kind == OBJK_DATAREADER then
      if v.format.InBinary? then None else CreateReader(c, raw, parent, v.text)
    else None
  }

  // The destructor of an object.
  function DeleteEntity(c: Ced, kind: ObjectKind, raw: RawId): Ced {
    if kind == OBJK_PARTICIPANT then DeleteParticipant(c, raw)
    else if kind == OBJK_TOPIC then DeleteTopic(c, raw)
    else if kind == OBJK_PUBLISHER then DeletePublisher(c, raw)
    else if kind == OBJK_SUBSCRIBER then DeleteSubscriber(c, raw)
    else if kind == OBJK_DATAWRITER then DeleteWriter(c, raw)
    else if kind == OBJK_DATAREADER then DeleteReader(c, raw)
    else c
  }

  // matched: publishers and subscribers match anything; the others compare kind and name or domain.
  predicate Matched(c: Ced, id: ObjectId, v: Variant) {
    var kind, raw := KindOf(id), ObjectIdToRaw(id);
    if kind == OBJK_PUBLISHER || kind == OBJK_SUBSCRIBER then true
    else
      && kind == v.kind
      && !v.format.InBinary?
      && (if kind == OBJK_PARTICIPANT then MatchedParticipant(c, raw, v.domain)
          else if kind == OBJK_TOPIC then MatchedTopic(c, raw, v.text)
          else if kind == OBJK_DATAWRITER then MatchedWriter(c, raw, v.text)
          else if kind == OBJK_DATAREADER then MatchedReader(c, raw, v.text)
          else false)
  }

  // ---------------------------------------------------------------- objects

  /** The unlocked create_object, for an id that is not in the table. Requesters and repliers need their
      participant but have no entity here; the remaining kinds do nothing and report success. */
  function CreateNew(t: Tables, id: ObjectId, v: Variant): (Tables, Status) {
    if v.kind == OBJK_PARTICIPANT then
      var made := CreateEntity(t.ced, ObjectIdToRaw(id), v);
      if made.Some? then (Tables(t.objects + {id}, made.value), StatusOk) else (t, ErrDds)
    else if OBJK_TOPIC <= v.kind <= OBJK_REPLIER then
      if ParentId(v) !in t.objects then (t, ErrUnknownReference)
      else
        var made := CreateEntity(t.ced, ObjectIdToRaw(id), v);
        if made.Some? then (Tables(t.objects + {id}, made.value), StatusOk) else (t, ErrDds)
    else (t, StatusOk)
  }

  function DeleteObject(t: Tables, id: ObjectId): Tables {
    if id in t.objects then Tables(t.objects - {id}, DeleteEntity(t.ced, KindOf(id), ObjectIdToRaw(id))) else t
  }

  function CreateObject(t: Tables, mode: CreationMode, prefix: ObjectId, v: Variant): (Tables, Status) {
    var id := WithKind(prefix, v.kind);
    if id !in t.objects then CreateNew(t, id, v)
    else if !mode.reuse then
      if !mode.replace then (t, ErrAlreadyExists) else CreateNew(DeleteObject(t, id), id, v)
    else if Matched(t.ced, id, v) then (t, OkMatched)
    else if !mode.replace then (t, ErrMismatch)
    else CreateNew(DeleteObject(t, id), id, v)
  }

  // ---------------------------------------------------------------- the mirror

  function EntityIds(c: Ced, kind: ObjectKind): set<RawId> {
    if kind == OBJK_PARTICIPANT then c.participants.Keys
    else if kind == OBJK_TOPIC then c.topics.Keys
    else if kind == OBJK_PUBLISHER then c.publishers.Keys
    else if kind == OBJK_SUBSCRIBER then c.subscribers.Keys
    else if kind == OBJK_DATAWRITER then c.writers.Keys
    else if kind == OBJK_DATAREADER then c.readers.Keys
    else {}
  }

  /** An object is in the object table exactly when its raw id is in the middleware's map of its kind. */
  ghost predicate Mirrors(t: Tables) {
    forall id: ObjectId :: id in t.objects <==> ObjectIdToRaw(id) in EntityIds(t.ced, KindOf(id))
  }

  ghost predicate Sound(t: Tables) {
    Mirrors(t) && RegisterIsExact(t.ced)
  }

  // A created entity adds its raw id to the map of its kind and nothing else.
  lemma EntityIdsAfterCreate(c: Ced, raw: RawId, v: Variant, kind: ObjectKind)
    requires CreateEntity(c, raw, v).Some?
    ensures HasEntity(v.kind) && raw !in EntityIds(c, v.kind)
    ensures EntityIds(CreateEntity(c, raw, v).value, kind)
            == EntityIds(c, kind) + if kind == v.kind then {raw} else {}
  {
    hide StripSuffix, ObjectIdToRaw;
  }

  // A deleted entity takes its raw id out of the map of its kind and nothing else.
  lemma EntityIdsAfterDelete(c: Ced, kind: ObjectKind, raw: RawId, other: ObjectKind)
    ensures EntityIds(DeleteEntity(c, kind, raw), other) == EntityIds(c, other) - if other == kind then {raw} else {}
  {
    hide DropTopic;
    if kind == OBJK_PARTICIPANT {
      KeysOfRemoval(c.participants, raw);
    } else if kind == OBJK_TOPIC {
      KeysOfRemoval(c.topics, raw);
      if raw in c.topics { DropTopicKeepsMaps(c.(topics := c.topics - {raw}), c.topics[raw]); }
    } else if kind == OBJK_PUBLISHER {
      KeysOfRemoval(c.publishers, raw);
    } else if kind == OBJK_SUBSCRIBER {
      KeysOfRemoval(c.subscribers, raw);
    } else if kind == OBJK_DATAWRITER {
      KeysOfRemoval(c.writers, raw);
      if raw in c.writers { DropTopicKeepsMaps(c.(writers := c.writers - {raw}), c.writers[raw]); }
    } else if kind == OBJK_DATAREADER {
      KeysOfRemoval(c.readers, raw);
      if raw in c.readers { DropTopicKeepsMaps(c.(readers := c.readers - {raw}), c.readers[raw]); }
    }
  }

  lemma CreateEntityKeepsRegister(c: Ced, raw: RawId, v: Variant)
    requires RegisterIsExact(c) && CreateEntity(c, raw, v).Some?
    ensures RegisterIsExact(CreateEntity(c, raw, v).value)
  {
    var parent := ObjectIdToRaw(v.parent);
    if v.kind == OBJK_TOPIC {
      CreateTopicKeepsRegister(c, raw, parent, v.text);
    } else if v.kind == OBJK_DATAWRITER {
      CreateWriterKeepsRegister(c, raw, parent, v.text);
    } else if v.kind == OBJK_DATAREADER {
      CreateReaderKeepsRegister(c, raw, parent, v.text);
    }
  }

  lemma DeleteEntityKeepsRegister(c: Ced, kind: ObjectKind, raw: RawId)
    requires RegisterIsExact(c)
    ensures RegisterIsExact(DeleteEntity(c, kind, raw))
  {
    if kind == OBJK_TOPIC {
      DeleteTopicKeepsRegister(c, raw);
    } else if kind == OBJK_DATAWRITER {
      DeleteWriterKeepsRegister(c, raw);
    } else if kind == OBJK_DATAREADER {
      DeleteReaderKeepsRegister(c, raw);
    }
  }

  lemma CreateNewKeepsSound(t: Tables, id: ObjectId, v: Variant)
    requires Sound(t) && id !in t.objects && KindOf(id) == v.kind
    ensures Sound(CreateNew(t, id, v).0)
  {
    var t' := CreateNew(t, id, v).0;
    if t' != t {
      CreateEntityKeepsRegister(t.ced, ObjectIdToRaw(id), v);
      forall x: ObjectId
        ensures x in t'.objects <==> ObjectIdToRaw(x) in EntityIds(t'.ced, KindOf(x))
      {
        ObjectIdsAreRawIdsWithKinds(x, id, 0, 0);
        EntityIdsAfterCreate(t.ced, ObjectIdToRaw(id), v, KindOf(x));
      }
    }
  }

  lemma DeleteObjectKeepsSound(t: Tables, id: ObjectId)
    requires Sound(t)
    ensures Sound(DeleteObject(t, id))
  {
    var t' := DeleteObject(t, id);
    if id in t.objects {
      DeleteEntityKeepsRegister(t.ced, KindOf(id), ObjectIdToRaw(id));
      forall x: ObjectId
        ensures x in t'.objects <==> ObjectIdToRaw(x) in EntityIds(t'.ced, KindOf(x))
      {
        ObjectIdsAreRawIdsWithKinds(x, id, 0, 0);
        EntityIdsAfterDelete(t.ced, KindOf(id), ObjectIdToRaw(id), KindOf(x));
      }
    }
  }

  lemma CreateObjectKeepsSound(t: Tables, mode: CreationMode, prefix: ObjectId, v: Variant)
    requires Sound(t)
    ensures Sound(CreateObject(t, mode, prefix, v).0)
  {
    var id := WithKind(prefix, v.kind);
    if id !in t.objects {
      CreateNewKeepsSound(t, id, v);
    } else {
      DeleteObjectKeepsSound(t, id);
      CreateNewKeepsSound(DeleteObject(t, id), id, v);
    }
  }

  // The objects of the order are destroyed one after the other.
  ghost predicate Destroys(t: Tables, order: seq<ObjectId>, t': Tables)
    decreases |order|
  {
    if order == [] then t' == t
    else order[0] in t.objects && Destroys(DeleteObject(t, order[0]), order[1..], t')
  }

  // release destroys all objects, in the order of the hash table: any order.
  ghost predicate Releases(t: Tables, order: seq<ObjectId>, t': Tables) {
    Destroys(t, order, t') && t'.objects == {}
  }

  lemma {:induction false} DestroysOneMore(t: Tables, order: seq<ObjectId>, mid: Tables, id: ObjectId)
    requires Destroys(t, order, mid) && id in mid.objects
    ensures Destroys(t, order + [id], DeleteObject(mid, id))
    decreases |order|
  {
    if order == [] {
      assert [id][1..] == [];
    } else {
      assert (order + [id])[1..] == order[1..] + [id];
      DestroysOneMore(DeleteObject(t, order[0]), order[1..], mid, id);
    }
  }

  datatype Action =
    | Create(mode: CreationMode, prefix: ObjectId, variant: Variant)
    | Delete(id: ObjectId)
    | Release(order: seq<ObjectId>)

  ghost predicate Steps(t: Tables, run: seq<Action>, t': Tables)
    decreases |run|
  {
    if run == [] then t == t'
    else match run[0]
      case Create(mode, prefix, v) => Steps(CreateObject(t, mode, prefix, v).0, run[1..], t')
      case Delete(id) => Steps(DeleteObject(t, id), run[1..], t')
      case Release(order) => exists mid :: Releases(t, order, mid) && Steps(mid, run[1..], t')
  }

  lemma {:induction false} ReleaseKeepsSound(t: Tables, order: seq<ObjectId>, t': Tables)
    requires Sound(t) && Releases(t, order, t')
    ensures Sound(t') && t'.objects == {}
    ensures forall kind: ObjectKind :: EntityIds(t'.ced, kind) == {}
    decreases |order|
  {
    if order == [] {
      forall kind: ObjectKind ensures EntityIds(t'.ced, kind) == {} {
        forall raw: RawId ensures raw !in EntityIds(t'.ced, kind) {
          RawFromObjectId(raw, kind);
          assert RawToObjectId(raw, kind) !in t'.objects;
        }
      }
    } else {
      DeleteObjectKeepsSound(t, order[0]);
      ReleaseKeepsSound(DeleteObject(t, order[0]), order[1..], t');
    }
  }

  lemma {:induction false} RunKeepsSound(t: Tables, run: seq<Action>, t': Tables)
    requires Sound(t) && Steps(t, run, t')
    ensures Sound(t')
    decreases |run|
  {
    if run != [] {
      match run[0]
      case Create(mode, prefix, v) =>
        CreateObjectKeepsSound(t, mode, prefix, v);
        RunKeepsSound(CreateObject(t, mode, prefix, v).0, run[1..], t');
      case Delete(id) =>
        DeleteObjectKeepsSound(t, id);
        RunKeepsSound(DeleteObject(t, id), run[1..], t');
      case Release(order) =>
        var mid :| Releases(t, order, mid) && Steps(mid, run[1..], t');
        ReleaseKeepsSound(t, order, mid);
        RunKeepsSound(mid, run[1..], t');
    }
  }

  /** The object table mirrors the middleware in every state that creations in all four modes, deletions
      and releases can reach, also when a replace deletes and the re-creation fails; and the topic
      registers list exactly the topics still held. */
  lemma ObjectTableMirrorsMiddleware(run: seq<Action>, t: Tables)
    requires Steps(NO_OBJECTS, run, t)
    ensures Mirrors(t) && RegisterIsExact(t.ced)
  {
    RunKeepsSound(NO_OBJECTS, run, t);
  }

  // ---------------------------------------------------------------- reuse, undo, frame

  /** A created entity matches the representation it was created from, although matching compares
      names with their suffixes stripped. */
  lemma CreatedEntityMatches(t: Tables, id: ObjectId, v: Variant)
    requires Sound(t) && id !in t.objects && KindOf(id) == v.kind && HasEntity(v.kind)
    requires CreateNew(t, id, v).1 == StatusOk
    ensures id in CreateNew(t, id, v).0.objects && Matched(CreateNew(t, id, v).0.ced, id, v)
  {
  }

  /** A data writer comes into being exactly when its publisher is in the table and some topic, data writer
      or data reader still holds a topic of the stripped name under that publisher's participant. */
  lemma WriterNeedsLiveTopic(t: Tables, id: ObjectId, v: Variant)
    requires Sound(t) && id !in t.objects && KindOf(id) == v.kind == OBJK_DATAWRITER && !v.format.InBinary?
    ensures CreateNew(t, id, v).1 == StatusOk
            <==> ParentId(v) in t.objects
                 && (var p := ObjectIdToRaw(v.parent);
                     p in t.ced.publishers
                     && exists e :: e in t.ced.topics.Values + t.ced.writers.Values + t.ced.readers.Values
                                    && e.participant == t.ced.publishers[p]
                                    && e.name == StripSuffix(v.text, DATAWRITER_SUFFIX))
  {
  }

  /** Reuse is idempotent: once an object of one of the six kinds was created or matched, repeating the
      request with reuse, with or without replace, matches and changes neither table. */
  lemma ReuseIsIdempotent(run: seq<Action>, t: Tables, mode: CreationMode, prefix: ObjectId, v: Variant, replace: bool)
    requires Steps(NO_OBJECTS, run, t) && HasEntity(v.kind)
    requires CreateObject(t, mode, prefix, v).1 in {StatusOk, OkMatched}
    ensures var t' := CreateObject(t, mode, prefix, v).0;
            CreateObject(t', CreationMode(true, replace), prefix, v) == (t', OkMatched)
  {
    RunKeepsSound(NO_OBJECTS, run, t);
    var id := WithKind(prefix, v.kind);
    if id !in t.objects {
      CreatedEntityMatches(t, id, v);
    } else {
      DeleteObjectKeepsSound(t, id);
      if CreateObject(t, mode, prefix, v).1 == StatusOk {
        CreatedEntityMatches(DeleteObject(t, id), id, v);
      }
    }
  }

  /** Deleting undoes creating: after a successful creation of a new object, deleting it restores the
      object table, all six maps and the topic registers. */
  lemma DeleteUndoesCreate(t: Tables, mode: CreationMode, prefix: ObjectId, v: Variant)
    requires Sound(t) && HasEntity(v.kind) && WithKind(prefix, v.kind) !in t.objects
    requires CreateObject(t, mode, prefix, v).1 == StatusOk
    ensures var id := WithKind(prefix, v.kind);
            var t' := DeleteObject(CreateObject(t, mode, prefix, v).0, id);
            && t'.objects == t.objects
            && t'.ced.(nextObj := t.ced.nextObj) == t.ced
  {
    var id := WithKind(prefix, v.kind);
    var raw := ObjectIdToRaw(id);
    var made := CreateEntity(t.ced, raw, v).value;
    CreateEntityKeepsRegister(t.ced, raw, v);
    EntityIdsAfterCreate(t.ced, raw, v, v.kind);
    DeleteEntityKeepsRegister(made, v.kind, raw);
    DeleteEntityRestoresMaps(t.ced, raw, v);
  }

  lemma DeleteEntityRestoresMaps(c: Ced, raw: RawId, v: Variant)
    requires CreateEntity(c, raw, v).Some?
    ensures var c' := DeleteEntity(CreateEntity(c, raw, v).value, v.kind, raw);
            c'.(registered := c.registered, nextObj := c.nextObj) == c
  {
    hide CreateTopic, CreateWriter, CreateReader, DeleteTopic, DeleteWriter, DeleteReader;
    var parent := ObjectIdToRaw(v.parent);
    if v.kind == OBJK_PARTICIPANT {
      RemovalUndoesUpdate(c.participants, raw, Participant(c.nextObj, v.domain));
    } else if v.kind == OBJK_TOPIC {
      DeleteUndoesCreateTopic(c, raw, parent, v.text);
    } else if v.kind == OBJK_PUBLISHER {
      RemovalUndoesUpdate(c.publishers, raw, c.participants[parent]);
    } else if v.kind == OBJK_SUBSCRIBER {
      RemovalUndoesUpdate(c.subscribers, raw, c.participants[parent]);
    } else if v.kind == OBJK_DATAWRITER {
      DeleteUndoesCreateWriter(c, raw, parent, v.text);
    } else {
      DeleteUndoesCreateReader(c, raw, parent, v.text);
    }
  }

  /** A creation touches one object: every other object, and every other raw id of every kind, is as before. */
  lemma CreateObjectFrame(t: Tables, mode: CreationMode, prefix: ObjectId, v: Variant, other: ObjectId)
    requires other != WithKind(prefix, v.kind)
    ensures var t' := CreateObject(t, mode, prefix, v).0;
            && (other in t'.objects <==> other in t.objects)
            && (ObjectIdToRaw(other) in EntityIds(t'.ced, KindOf(other))
                <==> ObjectIdToRaw(other) in EntityIds(t.ced, KindOf(other)))
  {
    var id := WithKind(prefix, v.kind);
    ObjectIdsAreRawIdsWithKinds(other, id, 0, 0);
    var base := if id in t.objects then DeleteObject(t, id) else t;
    EntityIdsAfterDelete(t.ced, KindOf(id), ObjectIdToRaw(id), KindOf(other));
    if CreateEntity(base.ced, ObjectIdToRaw(id), v).Some? {
      EntityIdsAfterCreate(base.ced, ObjectIdToRaw(id), v, KindOf(other));
    }
  }

  /** When a replacement fails, the object it replaced is gone from both sides, and nothing else is. */
  lemma FailedReplaceDeletes(t: Tables, mode: CreationMode, prefix: ObjectId, v: Variant)
    requires Sound(t) && WithKind(prefix, v.kind) in t.objects
    requires CreateObject(t, mode, prefix, v).1 in {ErrDds, ErrUnknownReference}
    ensures var id := WithKind(prefix, v.kind);
            var t' := CreateObject(t, mode, prefix, v).0;
            && mode.replace
            && id !in t'.objects && ObjectIdToRaw(id) !in EntityIds(t'.ced, v.kind)
            && t' == DeleteObject(t, id)
            && t'.objects == t.objects - {id}
            && forall kind: ObjectKind ::
                 EntityIds(t'.ced, kind) == EntityIds(t.ced, kind) - if kind == v.kind then {ObjectIdToRaw(id)} else {}
  {
    var id := WithKind(prefix, v.kind);
    CreateObjectKeepsSound(t, mode, prefix, v);
    forall kind: ObjectKind
      ensures EntityIds(DeleteObject(t, id).ced, kind)
              == EntityIds(t.ced, kind) - if kind == v.kind then {ObjectIdToRaw(id)} else {}
    {
      EntityIdsAfterDelete(t.ced, v.kind, ObjectIdToRaw(id), kind);
    }
  }

  // ---------------------------------------------------------------- the client object

  class ProxyClient {
    var objects: set<ObjectId>
    const middleware: CedMiddleware

    ghost function Abs(): Tables
      reads this, middleware
    {
      Tables(objects, middleware.Abs())
    }

    constructor ()
      ensures Abs() == NO_OBJECTS && fresh(middleware)
    {
      objects := {};
      middleware := new CedMiddleware();
    }

    // create_object(creation_mode, objectid_prefix, object_representation)
    method CreateInMode(mode: CreationMode, prefix: ObjectId, v: Variant) returns (status: Status)
      modifies this, middleware
      ensures (Abs(), status) == CreateObject(old(Abs()), mode, prefix, v)
    {
      var id := WithKind(prefix, v.kind);
      if id !in objects {
        status := CreateUnlocked(id, v);
      } else {
        if !mode.reuse {
          if !mode.replace {
            status := ErrAlreadyExists;
          } else {
            var _ := DeleteUnlocked(id);
            status := CreateUnlocked(id, v);
          }
        } else {
          var matched := ObjectMatches(id, v);
          if !mode.replace {
            status := if matched then OkMatched else ErrMismatch;
          } else {
            if matched {
              status := OkMatched;
            } else {
              var _ := DeleteUnlocked(id);
              status := CreateUnlocked(id, v);
            }
          }
        }
      }
    }

    // delete_object
    method Delete(id: ObjectId) returns (status: Status)
      modifies this, middleware
      ensures Abs() == DeleteObject(old(Abs()), id)
      ensures status == if id in old(objects) then StatusOk else ErrUnknownReference
    {
      var found := DeleteUnlocked(id);
      status := if found then StatusOk else ErrUnknownReference;
    }

    // release: objects_.clear()
    method ReleaseAll() returns (ghost order: seq<ObjectId>)
      modifies this, middleware
      ensures Releases(old(Abs()), order, Abs())
    {
      order := [];
      while objects != {}
        invariant Destroys(old(Abs()), order, Abs())
        decreases objects
      {
        var id :| id in objects;
        DestroysOneMore(old(Abs()), order, Abs(), id);
        var _ := DeleteUnlocked(id);
        order := order + [id];
      }
    }

    // delete_object_unlock; erasing the object runs its destructor.
    method DeleteUnlocked(id: ObjectId) returns (found: bool)
      modifies this, middleware
      ensures found == (id in old(objects))
      ensures Abs() == DeleteObject(old(Abs()), id)
    {
      found := id in objects;
      if found {
        objects := objects - {id};
        var kind, raw := KindOf(id), ObjectIdToRaw(id);
        if kind == OBJK_PARTICIPANT {
          middleware.EraseParticipant(raw);
        } else if kind == OBJK_TOPIC {
          middleware.EraseTopic(raw);
        } else if kind == OBJK_PUBLISHER {
          middleware.ErasePublisher(raw);
        } else if kind == OBJK_SUBSCRIBER {
          middleware.EraseSubscriber(raw);
        } else if kind == OBJK_DATAWRITER {
          middleware.EraseDataWriter(raw);
        } else if kind == OBJK_DATAREADER {
          middleware.EraseDataReader(raw);
        }
      }
    }

    method ObjectMatches(id: ObjectId, v: Variant) returns (matched: bool)
      ensures matched == Matched(middleware.Abs(), id, v)
    {
      var kind, raw := KindOf(id), ObjectIdToRaw(id);
      if kind == OBJK_PUBLISHER || kind == OBJK_SUBSCRIBER {
        return true;
      }
      if kind != v.kind || v.format.InBinary? {
        return false;
      }
      if kind == OBJK_PARTICIPANT {
        matched := raw in middleware.participants && v.domain == middleware.participants[raw].domain;
      } else if kind == OBJK_TOPIC {
        matched := raw in middleware.topics && StripSuffix(v.text, TOPIC_SUFFIX) == middleware.topics[raw].name;
      } else if kind == OBJK_DATAWRITER {
        matched := raw in middleware.writers && StripSuffix(v.text, DATAWRITER_SUFFIX) == middleware.writers[raw].name;
      } else if kind == OBJK_DATAREADER {
        matched := raw in middleware.readers && StripSuffix(v.text, DATAREADER_SUFFIX) == middleware.readers[raw].name;
      } else {
        matched := false;
      }
    }

    // create_object(object_id, representation, result_status) and the create_* it dispatches to.
    method CreateUnlocked(id: ObjectId, v: Variant) returns (status: Status)
      modifies this, middleware
      ensures (Abs(), status) == CreateNew(old(Abs()), id, v)
    {
      status := StatusOk;
      if OBJK_PARTICIPANT <= v.kind <= OBJK_REPLIER {
        if v.kind != OBJK_PARTICIPANT && ParentId(v) !in objects {
          return ErrUnknownReference;
        }
        var raw, parent := ObjectIdToRaw(id), ObjectIdToRaw(ParentId(v));
        var made := false;
        if v.kind == OBJK_PARTICIPANT {
          if !v.format.InBinary? {
            made := middleware.CreateParticipantByRef(raw, v.domain);
          }
        } else if v.kind == OBJK_TOPIC {
          if !v.format.InBinary? {
            made := middleware.CreateTopicByRef(raw, parent, v.text);
          }
        } else if v.kind == OBJK_PUBLISHER {
          if v.format.AsXmlString? {
            made := middleware.CreatePublisherByXml(raw, parent);
          }
        } else if v.kind == OBJK_SUBSCRIBER {
          if v.format.AsXmlString? {
            made := middleware.CreateSubscriberByXml(raw, parent);
          }
        } else if v.kind == OBJK_DATAWRITER {
          if !v.format.InBinary? {
            made := middleware.CreateDataWriterByRef(raw, parent, v.text);
          }
        } else if v.kind == OBJK_DATAREADER {
          if !v.format.InBinary? {
            made := middleware.CreateDataReaderByRef(raw, parent, v.text);
          }
        }
        if made {
          objects := objects + {id};
        } else {
          status := ErrDds;
        }
      }
    }
  }
}
