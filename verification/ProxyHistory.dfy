/** Whole lives of a client's objects: what each object was made from, and what follows from that for later
    requests, stated without the tables that answer them. */
module ProxyHistories {
  import opened Words
  import opened XrceIds
  import opened Conversions
  import opened CedMiddlewares
  import opened ProxyClients

  // The request an object was made by, and the participant it belongs to.
  datatype Origin = Origin(request: Variant, participant: Participant)

  // births counts the participants made so far; the n-th is known by n.
  datatype History = History(origins: map<ObjectId, Origin>, births: nat)

  const NO_HISTORY := History(map[], 0)

  // A topic's name is its reference up to the suffix of the kind of object that refers to it.
  function NameIn(v: Variant): string {
    StripSuffix(v.text, if v.kind == 2 then "__t" else if v.kind == 5 then "__dw" else "__dr")
  }

  // The participant of a new object: itself, or that of the object the request names.
  function ParticipantOf(h: History, v: Variant): Participant {
    if v.kind == 1 || ParentId(v) !in h.origins then Participant(h.births, v.domain)
    else h.origins[ParentId(v)].participant
  }

  // What a creation adds to the history, by its status.
  function After(h: History, prefix: ObjectId, v: Variant, status: Status): History {
    if status == StatusOk && 1 <= v.kind <= 6
    then History(h.origins[WithKind(prefix, v.kind) := Origin(v, ParticipantOf(h, v))],
                 if v.kind == 1 then h.births + 1 else h.births)
    else h
  }

  ghost predicate Steps(t: Tables, h: History, run: seq<Action>, t': Tables, h': History)
    decreases |run|
  {
    if run == [] then t == t' && h == h'
    else match run[0]
      case Create(mode, prefix, v) =>
        var (next, status) := CreateObject(t, mode, prefix, v);
        Steps(next, After(h, prefix, v, status), run[1..], t', h')
      case Delete(id) => Steps(DeleteObject(t, id), h, run[1..], t', h')
      case Release(order) => exists mid :: Releases(t, order, mid) && Steps(mid, h, run[1..], t', h')
  }

  // ---------------------------------------------------------------- what the tables recall

  // The middleware's entity is what its origin says.
  predicate Recalled(c: Ced, raw: RawId, o: Origin) {
    var kind := o.request.kind;
    if kind == 1 then
      raw in c.participants && c.participants[raw] == o.participant && o.participant.domain == o.request.domain
    else if kind == 2 then raw in c.topics && c.topics[raw] == Topic(o.participant, NameIn(o.request))
    else if kind == 3 then raw in c.publishers && c.publishers[raw] == o.participant
    else if kind == 4 then raw in c.subscribers && c.subscribers[raw] == o.participant
    else if kind == 5 then raw in c.writers && c.writers[raw] == Topic(o.participant, NameIn(o.request))
    else kind == 6 && raw in c.readers && c.readers[raw] == Topic(o.participant, NameIn(o.request))
  }

  ghost predicate Recalls(t: Tables, h: History) {
    && t.ced.nextObj == h.births
    && forall id :: id in t.objects ==>
         && id in h.origins && h.origins[id].request.kind == KindOf(id)
         && Recalled(t.ced, ObjectIdToRaw(id), h.origins[id])
  }

  lemma CreationRecalled(c: Ced, raw: RawId, v: Variant, p: Participant)
    requires CreateEntity(c, raw, v).Some?
    requires v.kind == 1 ==> p == Participant(c.nextObj, v.domain)
    requires v.kind != 1 ==>
               var parent := ObjectIdToRaw(v.parent);
               if v.kind == 5 then parent in c.publishers && c.publishers[parent] == p
               else if v.kind == 6 then parent in c.subscribers && c.subscribers[parent] == p
               else parent in c.participants && c.participants[parent] == p
    ensures Recalled(CreateEntity(c, raw, v).value, raw, Origin(v, p))
    ensures CreateEntity(c, raw, v).value.nextObj == c.nextObj + if v.kind == 1 then 1 else 0
  {
    hide StripSuffix, ObjectIdToRaw;
  }

  lemma CreationKeepsRecalled(c: Ced, raw: RawId, v: Variant, other: RawId, o: Origin)
    requires CreateEntity(c, raw, v).Some? && Recalled(c, other, o)
    requires !(other == raw && o.request.kind == v.kind)
    ensures Recalled(CreateEntity(c, raw, v).value, other, o)
  {
    hide StripSuffix, ObjectIdToRaw;
  }

  // A deletion takes one entry out of one map.
  lemma DeletionOnMaps(c: Ced, kind: ObjectKind, raw: RawId)
    ensures var c' := DeleteEntity(c, kind, raw);
            && c'.nextObj == c.nextObj
            && c'.participants == (if kind == 1 then c.participants - {raw} else c.participants)
            && c'.topics == (if kind == 2 then c.topics - {raw} else c.topics)
            && c'.publishers == (if kind == 3 then c.publishers - {raw} else c.publishers)
            && c'.subscribers == (if kind == 4 then c.subscribers - {raw} else c.subscribers)
            && c'.writers == (if kind == 5 then c.writers - {raw} else c.writers)
            && c'.readers == (if kind == 6 then c.readers - {raw} else c.readers)
  {
    hide DropTopic;
    if kind == 2 && raw in c.topics {
      DropTopicKeepsMaps(c.(topics := c.topics - {raw}), c.topics[raw]);
    } else if kind == 5 && raw in c.writers {
      DropTopicKeepsMaps(c.(writers := c.writers - {raw}), c.writers[raw]);
    } else if kind == 6 && raw in c.readers {
      DropTopicKeepsMaps(c.(readers := c.readers - {raw}), c.readers[raw]);
    }
  }

  lemma DeletionKeepsRecalled(c: Ced, kind: ObjectKind, raw: RawId, other: RawId, o: Origin)
    requires Recalled(c, other, o) && !(other == raw && o.request.kind == kind)
    ensures Recalled(DeleteEntity(c, kind, raw), other, o)
  {
    hide DeleteEntity, NameIn;
    DeletionOnMaps(c, kind, raw);
  }

  lemma DeleteKeepsRecalls(t: Tables, h: History, id: ObjectId)
    requires Recalls(t, h)
    ensures Recalls(DeleteObject(t, id), h)
  {
    hide DeleteEntity, Recalled, KindOf, ObjectIdToRaw;
    if id in t.objects {
      var t' := DeleteObject(t, id);
      DeletionOnMaps(t.ced, KindOf(id), ObjectIdToRaw(id));
      forall x | x in t'.objects
        ensures Recalled(t'.ced, ObjectIdToRaw(x), h.origins[x])
      {
        ObjectIdsAreRawIdsWithKinds(x, id, 0, 0);
        DeletionKeepsRecalled(t.ced, KindOf(id), ObjectIdToRaw(id), ObjectIdToRaw(x), h.origins[x]);
      }
    }
  }

  // The object a request names is what the middleware will find under its raw id.
  lemma ParentIsRecalled(t: Tables, h: History, v: Variant)
    requires Recalls(t, h) && 2 <= v.kind <= 6 && ParentId(v) in t.objects
    ensures ParticipantOf(h, v) == h.origins[ParentId(v)].participant
    ensures var parent, p := ObjectIdToRaw(v.parent), ParticipantOf(h, v);
            if v.kind == 5 then parent in t.ced.publishers && t.ced.publishers[parent] == p
            else if v.kind == 6 then parent in t.ced.subscribers && t.ced.subscribers[parent] == p
            else parent in t.ced.participants && t.ced.participants[parent] == p
  {
    hide ObjectIdToRaw, NameIn;
    assert KindOf(ParentId(v)) == ParentKind(v.kind);
    assert Recalled(t.ced, ObjectIdToRaw(ParentId(v)), h.origins[ParentId(v)]);
  }

  lemma CreateNewKeepsRecalls(t: Tables, h: History, prefix: ObjectId, v: Variant)
    requires Recalls(t, h) && WithKind(prefix, v.kind) !in t.objects
    ensures var (t', status) := CreateNew(t, WithKind(prefix, v.kind), v);
            Recalls(t', After(h, prefix, v, status))
  {
    hide CreateEntity, Recalled, ObjectIdToRaw;
    var id := WithKind(prefix, v.kind);
    var (t', status) := CreateNew(t, id, v);
    if t'.objects != t.objects {
      EntityIdsAfterCreate(t.ced, ObjectIdToRaw(id), v, v.kind);
      if v.kind != 1 {
        ParentIsRecalled(t, h, v);
      }
      CreationRecalled(t.ced, ObjectIdToRaw(id), v, ParticipantOf(h, v));
      forall x | x in t.objects
        ensures Recalled(t'.ced, ObjectIdToRaw(x), h.origins[x])
      {
        ObjectIdsAreRawIdsWithKinds(x, id, 0, 0);
        CreationKeepsRecalled(t.ced, ObjectIdToRaw(id), v, ObjectIdToRaw(x), h.origins[x]);
      }
    }
  }

  lemma CreateObjectKeepsRecalls(t: Tables, h: History, mode: CreationMode, prefix: ObjectId, v: Variant)
    requires Recalls(t, h)
    ensures var (t', status) := CreateObject(t, mode, prefix, v);
            Recalls(t', After(h, prefix, v, status))
  {
    hide Recalls, CreateNew, DeleteObject, Matched;
    var id := WithKind(prefix, v.kind);
    if id !in t.objects {
      CreateNewKeepsRecalls(t, h, prefix, v);
    } else {
      DeleteKeepsRecalls(t, h, id);
      DeletedIsGone(t, id);
      CreateNewKeepsRecalls(DeleteObject(t, id), h, prefix, v);
    }
  }

  lemma DeletedIsGone(t: Tables, id: ObjectId)
    ensures DeleteObject(t, id).objects == t.objects - {id}
  {
  }

  lemma {:induction false} ReleaseKeepsRecalls(t: Tables, h: History, order: seq<ObjectId>, t': Tables)
    requires Recalls(t, h) && Destroys(t, order, t')
    ensures Recalls(t', h)
    decreases |order|
  {
    hide Recalls;
    if order != [] {
      DeleteKeepsRecalls(t, h, order[0]);
      ReleaseKeepsRecalls(DeleteObject(t, order[0]), h, order[1..], t');
    }
  }

  lemma {:induction false} RunKeepsRecalls(t: Tables, h: History, run: seq<Action>, t': Tables, h': History)
    requires Sound(t) && Recalls(t, h) && Steps(t, h, run, t', h')
    ensures Sound(t') && Recalls(t', h')
    decreases |run|
  {
    hide Recalls, Sound, CreateObject, DeleteObject;
    if run != [] {
      match run[0]
      case Create(mode, prefix, v) =>
        var (next, status) := CreateObject(t, mode, prefix, v);
        CreateObjectKeepsSound(t, mode, prefix, v);
        CreateObjectKeepsRecalls(t, h, mode, prefix, v);
        RunKeepsRecalls(next, After(h, prefix, v, status), run[1..], t', h');
      case Delete(id) =>
        DeleteObjectKeepsSound(t, id);
        DeleteKeepsRecalls(t, h, id);
        RunKeepsRecalls(DeleteObject(t, id), h, run[1..], t', h');
      case Release(order) =>
        var mid :| Releases(t, order, mid) && Steps(mid, h, run[1..], t', h');
        ReleaseKeepsSound(t, order, mid);
        ReleaseKeepsRecalls(t, h, order, mid);
        RunKeepsRecalls(mid, h, run[1..], t', h');
    }
  }

  lemma NothingToRecall()
    ensures Sound(NO_OBJECTS) && Recalls(NO_OBJECTS, NO_HISTORY)
  {
  }

  // ---------------------------------------------------------------- answers to requests

  // The request asks for what the object was made as: publishers and subscribers always, participants by
  // domain, the others by name.
  predicate AsksForSame(made: Variant, v: Variant) {
    || made.kind == 3 || made.kind == 4
    || (!v.format.InBinary? && if made.kind == 1 then v.domain == made.domain else NameIn(v) == NameIn(made))
  }

  lemma MatchedIffSame(t: Tables, h: History, id: ObjectId, v: Variant)
    requires Sound(t) && Recalls(t, h) && id in t.objects && KindOf(id) == v.kind
    ensures 1 <= v.kind <= 6
    ensures Matched(t.ced, id, v) <==> AsksForSame(h.origins[id].request, v)
  {
    hide StripSuffix, ObjectIdToRaw;
    assert ObjectIdToRaw(id) in EntityIds(t.ced, KindOf(id));
    assert Recalled(t.ced, ObjectIdToRaw(id), h.origins[id]);
  }

  /** The creation modes of Table 7, over whole lives: a request for an object that exists is refused without
      reuse and replace; with reuse it is answered by the existing object iff it asks for what that object was
      made as, and refused as a mismatch otherwise unless replace is set; in the remaining cases the object is
      deleted and made anew. Refusals and matches change nothing. */
  lemma CreationModes(run: seq<Action>, t: Tables, h: History, mode: CreationMode, prefix: ObjectId, v: Variant)
    requires Steps(NO_OBJECTS, NO_HISTORY, run, t, h) && WithKind(prefix, v.kind) in t.objects
    ensures var id := WithKind(prefix, v.kind);
            && id in h.origins
            && var same := AsksForSame(h.origins[id].request, v);
               CreateObject(t, mode, prefix, v)
               == if !mode.reuse && !mode.replace then (t, ErrAlreadyExists)
                  else if mode.reuse && same then (t, OkMatched)
                  else if !mode.replace then (t, ErrMismatch)
                  else CreateNew(DeleteObject(t, id), id, v)
  {
    hide Recalls, Sound, CreateNew, DeleteObject, Matched, AsksForSame;
    NothingToRecall();
    RunKeepsRecalls(NO_OBJECTS, NO_HISTORY, run, t, h);
    RecalledObject(t, h, WithKind(prefix, v.kind));
    MatchedIffSame(t, h, WithKind(prefix, v.kind), v);
  }

  lemma RecalledObject(t: Tables, h: History, id: ObjectId)
    requires Recalls(t, h) && id in t.objects
    ensures id in h.origins
  {
  }

  // A topic of that participant and name is held by some object.
  ghost predicate TopicInUse(t: Tables, h: History, p: Participant, name: string) {
    exists id :: id in t.objects && InUseBy(h, id, p, name)
  }

  predicate InUseBy(h: History, id: ObjectId, p: Participant, name: string) {
    && id in h.origins
    && h.origins[id].request.kind in {2, 5, 6}
    && h.origins[id].participant == p && NameIn(h.origins[id].request) == name
  }

  lemma RegisteredIffInUse(t: Tables, h: History, p: Participant, name: string)
    requires Sound(t) && Recalls(t, h)
    ensures Topic(p, name) in t.ced.registered <==> TopicInUse(t, h, p, name)
  {
    hide NameIn;
    if Topic(p, name) in t.ced.registered {
      var kind, raw := HolderOf(t.ced, Topic(p, name));
      RawFromObjectId(raw, kind);
      var id := RawToObjectId(raw, kind);
      assert id in t.objects;
      assert Recalled(t.ced, raw, h.origins[id]);
      assert InUseBy(h, id, p, name);
    }
    if TopicInUse(t, h, p, name) {
      var id :| id in t.objects && InUseBy(h, id, p, name);
      var raw := ObjectIdToRaw(id);
      assert Recalled(t.ced, raw, h.origins[id]);
      ValueIn(t.ced, KindOf(id), raw);
    }
  }

  lemma HolderOf(c: Ced, e: Topic) returns (kind: ObjectKind, raw: RawId)
    requires RegisterIsExact(c) && e in c.registered
    ensures kind in {2, 5, 6} && raw in EntityIds(c, kind)
    ensures kind == 2 ==> c.topics[raw] == e
    ensures kind == 5 ==> c.writers[raw] == e
    ensures kind == 6 ==> c.readers[raw] == e
  {
    if e in c.topics.Values {
      kind := 2;
      raw :| raw in c.topics && c.topics[raw] == e;
    } else if e in c.writers.Values {
      kind := 5;
      raw :| raw in c.writers && c.writers[raw] == e;
    } else {
      kind := 6;
      raw :| raw in c.readers && c.readers[raw] == e;
    }
  }

  lemma ValueIn(c: Ced, kind: ObjectKind, raw: RawId)
    requires RegisterIsExact(c) && kind in {2, 5, 6} && raw in EntityIds(c, kind)
    ensures (if kind == 2 then c.topics[raw] else if kind == 5 then c.writers[raw] else c.readers[raw]) in c.registered
  {
  }

  // The representation formats the middleware makes entities from.
  predicate Makeable(v: Variant) {
    if v.kind == 3 || v.kind == 4 then v.format.AsXmlString? else !v.format.InBinary?
  }

  // A writer or reader finds its topic.
  ghost predicate FindsTopic(t: Tables, h: History, v: Variant) {
    v.kind == 5 || v.kind == 6 ==> TopicInUse(t, h, ParticipantOf(h, v), NameIn(v))
  }

  lemma CreatableIff(t: Tables, h: History, id: ObjectId, v: Variant)
    requires Sound(t) && Recalls(t, h) && id !in t.objects && KindOf(id) == v.kind && 1 <= v.kind <= 6
    requires v.kind == 1 || ParentId(v) in t.objects
    ensures CreateEntity(t.ced, ObjectIdToRaw(id), v).Some? <==> Makeable(v) && FindsTopic(t, h, v)
  {
    hide StripSuffix, ObjectIdToRaw, TopicInUse, Recalls;
    assert ObjectIdToRaw(id) !in EntityIds(t.ced, v.kind);
    if v.kind != 1 {
      ParentIsRecalled(t, h, v);
    }
    if v.kind == 5 || v.kind == 6 {
      RegisteredIffInUse(t, h, ParticipantOf(h, v), NameIn(v));
    }
  }

  /** What a request for a new object answers, over whole lives: the object it names must be there; its format
      must be one the middleware makes entities from; and a data writer or reader needs a topic of its
      name, in use by some topic, writer or reader of the same participant. Otherwise nothing changes. */
  lemma CreationSucceedsIff(run: seq<Action>, t: Tables, h: History, mode: CreationMode, prefix: ObjectId, v: Variant)
    requires Steps(NO_OBJECTS, NO_HISTORY, run, t, h) && WithKind(prefix, v.kind) !in t.objects
    requires 1 <= v.kind <= 6
    ensures var (t', status) := CreateObject(t, mode, prefix, v);
            && status == (if v.kind != 1 && ParentId(v) !in t.objects then ErrUnknownReference
                          else if Makeable(v) && FindsTopic(t, h, v) then StatusOk
                          else ErrDds)
            && t'.objects == t.objects + (if status == StatusOk then {WithKind(prefix, v.kind)} else {})
            && (status != StatusOk ==> t' == t)
  {
    hide Recalls, Sound, CreateEntity, Makeable, FindsTopic;
    NothingToRecall();
    RunKeepsRecalls(NO_OBJECTS, NO_HISTORY, run, t, h);
    if v.kind == 1 || ParentId(v) in t.objects {
      CreatableIff(t, h, WithKind(prefix, v.kind), v);
    }
  }

  /** Requesters and repliers, which this middleware has no entities for, fail once their participant is found;
      any other kind is answered with success and leaves no object. */
  lemma OtherKindsMakeNothing(t: Tables, mode: CreationMode, prefix: ObjectId, v: Variant)
    requires WithKind(prefix, v.kind) !in t.objects && !(1 <= v.kind <= 6)
    ensures CreateObject(t, mode, prefix, v)
            == (t, if v.kind != 7 && v.kind != 8 then StatusOk
                   else if WithKind(v.parent, 1) in t.objects then ErrDds
                   else ErrUnknownReference)
  {
  }

  /** The object a request names: the participant, but for writers their publisher and for readers their
      subscriber, by the twelve bits of its prefix. */
  lemma ParentsByKind(v: Variant)
    ensures KindOf(ParentId(v)) == (if v.kind == 5 then 3 else if v.kind == 6 then 4 else 1)
    ensures ParentId(v).hi == v.parent.hi && ParentId(v).lo / 16 == v.parent.lo / 16
  {
  }

  /** A deletion takes that object and no other, and what the others were made from still holds of them. */
  lemma DeletionFrame(run: seq<Action>, t: Tables, h: History, id: ObjectId)
    requires Steps(NO_OBJECTS, NO_HISTORY, run, t, h)
    ensures DeleteObject(t, id).objects == t.objects - {id}
    ensures id !in t.objects ==> DeleteObject(t, id) == t
    ensures Recalls(DeleteObject(t, id), h)
  {
    hide Recalls, Sound;
    NothingToRecall();
    RunKeepsRecalls(NO_OBJECTS, NO_HISTORY, run, t, h);
    DeleteKeepsRecalls(t, h, id);
  }
}
