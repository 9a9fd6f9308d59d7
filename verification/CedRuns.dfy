/** Whole runs of one CED topic: writers and readers of any clients, interleaved at the
    granularity of the topic's mutex. A reader's steps are the outcomes CedTopic proves of
    CedDataReader.Scan and CedDataReader.Evaluate. */
module CedRuns {
  import opened XrceIds
  import opened SeqNums
  import opened CedAccess
  import opened CedTopic

  // delivered: the log places of the samples this reader's read calls returned, in order.
  datatype Reader = Reader(key: ClientKey, pos: nat, delivered: seq<nat>)

  // writers[k] is the client that wrote log[k].
  datatype World = World(log: seq<Entry>, writers: seq<ClientKey>, readers: seq<Reader>)

  datatype Event =
    | Publish(key: ClientKey, data: Payload)
    | Subscribe(key: ClientKey)
    | Scan(i: nat)
    | Evaluate(i: nat)

  const EMPTY := World([], [], [])

  function Advance(r: Reader, o: Outcome): Reader {
    match o.served
    case Some(k) => r.(pos := o.pos, delivered := r.delivered + [k])
    case None => r.(pos := o.pos)
  }

  function ScanReader(log: seq<Entry>, r: Reader, h: nat): Reader
    requires LegalCapacity(h)
  {
    if r.pos > |log| then r else Advance(r, ScanOutcome(log, r.pos, h, RoleOf(r.key).read))
  }

  function EvaluateReader(log: seq<Entry>, r: Reader, h: nat): Reader
    requires LegalCapacity(h)
  {
    if r.pos > |log| then r else Advance(r, EvaluateOutcome(log, r.pos, h, RoleOf(r.key).read))
  }

  function Step(w: World, e: Event, h: nat): World
    requires LegalCapacity(h)
  {
    match e
    case Publish(key, data) =>
      var role := RoleOf(key);
      if CheckWriteAccess(role.write, role.src)
      then w.(log := w.log + [Entry(data, role.src)], writers := w.writers + [key])
      else w
    case Subscribe(key) => w.(readers := w.readers + [Reader(key, 0, [])])
    case Scan(i) =>
      if i < |w.readers| then w.(readers := w.readers[i := ScanReader(w.log, w.readers[i], h)]) else w
    case Evaluate(i) =>
      if i < |w.readers| then w.(readers := w.readers[i := EvaluateReader(w.log, w.readers[i], h)]) else w
  }

  function Run(w: World, events: seq<Event>, h: nat): World
    requires LegalCapacity(h)
    decreases |events|
  {
    if events == [] then w else Run(Step(w, events[0], h), events[1..], h)
  }

  // ---------------------------------------------------------------- who wrote what one reads

  ghost predicate Sourced(w: World) {
    && |w.writers| == |w.log|
    && (forall k :: 0 <= k < |w.log| ==>
          && w.log[k].src == RoleOf(w.writers[k]).src
          && CheckWriteAccess(RoleOf(w.writers[k]).write, w.log[k].src))
    && forall i :: 0 <= i < |w.readers| ==> ReadsOnlyPermitted(w.log, w.readers[i])
  }

  ghost predicate ReadsOnlyPermitted(log: seq<Entry>, r: Reader) {
    forall k :: k in r.delivered ==> k < |log| && Permitted(RoleOf(r.key).read, log[k])
  }

  lemma ScanKeepsPermitted(log: seq<Entry>, r: Reader, h: nat)
    requires LegalCapacity(h) && ReadsOnlyPermitted(log, r)
    ensures ReadsOnlyPermitted(log, ScanReader(log, r, h))
  {
  }

  lemma EvaluateKeepsPermitted(log: seq<Entry>, r: Reader, h: nat)
    requires LegalCapacity(h) && ReadsOnlyPermitted(log, r)
    ensures ReadsOnlyPermitted(log, EvaluateReader(log, r, h))
  {
  }

  lemma StepKeepsSourced(w: World, e: Event, h: nat)
    requires LegalCapacity(h) && Sourced(w)
    ensures Sourced(Step(w, e, h))
  {
    hide ScanReader, EvaluateReader;
    var w' := Step(w, e, h);
    if (e.Scan? || e.Evaluate?) && e.i < |w.readers| {
      ScanKeepsPermitted(w.log, w.readers[e.i], h);
      EvaluateKeepsPermitted(w.log, w.readers[e.i], h);
    }
    forall i | 0 <= i < |w'.readers|
      ensures ReadsOnlyPermitted(w'.log, w'.readers[i])
    {
      if i < |w.readers| {
        assert ReadsOnlyPermitted(w.log, w.readers[i]);
      }
    }
  }

  lemma {:induction false} RunKeepsSourced(w: World, events: seq<Event>, h: nat)
    requires LegalCapacity(h) && Sourced(w)
    ensures Sourced(Run(w, events, h))
    decreases |events|
  {
    if events != [] {
      StepKeepsSourced(w, events[0], h);
      RunKeepsSourced(Step(w, events[0], h), events[1..], h);
    }
  }

  /** No forwarding loop: over any run, the readers of a client that carries the external prefix
      return only samples written by ordinary clients of this agent. No condition on timing: it
      holds even for reads the ring has overtaken. */
  lemma ForwardersReadOnlyOrdinaryClients(events: seq<Event>, h: nat, i: nat, k: nat)
    requires LegalCapacity(h)
    requires var w := Run(EMPTY, events, h);
             i < |w.readers| && !Ordinary(w.readers[i].key) && k in w.readers[i].delivered
    ensures var w := Run(EMPTY, events, h);
            k < |w.log| && |w.writers| == |w.log| && Ordinary(w.writers[k])
  {
    RunKeepsSourced(EMPTY, events, h);
    var w := Run(EMPTY, events, h);
    assert ReadsOnlyPermitted(w.log, w.readers[i]);
  }

  // The samples of the events, by the clients that may write.
  function Published(events: seq<Event>): seq<(ClientKey, Payload)> {
    if events == [] then []
    else
      (if events[0].Publish? && MayWrite(events[0].key) then [(events[0].key, events[0].data)] else [])
      + Published(events[1..])
  }

  function WrittenBy(w: World): seq<(ClientKey, Payload)>
    requires |w.writers| == |w.log|
  {
    seq(|w.log|, k requires 0 <= k < |w.log| => (w.writers[k], w.log[k].data))
  }

  lemma StepWrites(w: World, e: Event, h: nat)
    requires LegalCapacity(h) && |w.writers| == |w.log|
    ensures var w' := Step(w, e, h);
            && |w'.writers| == |w'.log|
            && WrittenBy(w') == WrittenBy(w) + if e.Publish? && MayWrite(e.key) then [(e.key, e.data)] else []
  {
    if e.Publish? {
      AccessByKeys(e.key, e.key);
    }
  }

  lemma {:induction false} RunWrites(w: World, events: seq<Event>, h: nat)
    requires LegalCapacity(h) && |w.writers| == |w.log|
    ensures var w' := Run(w, events, h);
            |w'.writers| == |w'.log| && WrittenBy(w') == WrittenBy(w) + Published(events)
    decreases |events|
  {
    hide Step, WrittenBy;
    if events == [] {
      assert WrittenBy(w) + [] == WrittenBy(w);
    } else {
      var first := if events[0].Publish? && MayWrite(events[0].key) then [(events[0].key, events[0].data)] else [];
      StepWrites(w, events[0], h);
      RunWrites(Step(w, events[0], h), events[1..], h);
      assert WrittenBy(w) + first + Published(events[1..]) == WrittenBy(w) + (first + Published(events[1..]));
    }
  }

  /** The log is what was published: every sample of a client that may write, once, in order, and nothing else. */
  lemma LogIsWhatWasPublished(events: seq<Event>, h: nat)
    requires LegalCapacity(h)
    ensures var w := Run(EMPTY, events, h);
            |w.writers| == |w.log| && WrittenBy(w) == Published(events)
  {
    RunWrites(EMPTY, events, h);
    assert WrittenBy(EMPTY) == [];
    assert [] + Published(events) == Published(events);
  }

  // ---------------------------------------------------------------- loss

  // A permitted sample the reader has passed without returning it was followed by at least h writes.
  ghost predicate SkipsOnlyOverwritten(log: seq<Entry>, r: Reader, h: nat) {
    forall k :: 0 <= k < r.pos && k < |log| && Permitted(RoleOf(r.key).read, log[k]) && k !in r.delivered
                ==> |log| - (k + 1) >= h
  }

  /** The scan loses nothing the ring still holds: its reader is less than a whole turn of the counter
      late, or visibly lapped, or has no use for any retained entry that the wrapped lag hides. */
  ghost predicate ScanIsSafe(log: seq<Entry>, r: Reader, h: nat)
    requires LegalCapacity(h) && r.pos <= |log|
  {
    || |log| - r.pos < MAX
    || VisibleLag(log, r.pos) >= h
    || forall i :: |log| - h <= i < |log| - VisibleLag(log, r.pos)
                   ==> !Permitted(RoleOf(r.key).read, log[i]) || i in r.delivered
  }

  /** A scan passes over no retained permitted sample exactly when it is safe, in whatever order the
      reader was served before. */
  lemma ScanSkipsOnlyOverwritten(log: seq<Entry>, r: Reader, h: nat)
    requires LegalCapacity(h) && r.pos <= |log| && SkipsOnlyOverwritten(log, r, h)
    ensures SkipsOnlyOverwritten(log, ScanReader(log, r, h), h) <==> ScanIsSafe(log, r, h)
  {
    var access := RoleOf(r.key).read;
    var r', start, k := ScanReader(log, r, h), ScanStart(log, r.pos, h), ScanResult(log, r.pos, h, access);
    assert forall i :: i in r'.delivered <==> i in r.delivered || (i == k && k < |log|);
    if ScanIsSafe(log, r, h) {
      forall i | 0 <= i < r'.pos && Permitted(access, log[i]) && i !in r'.delivered
        ensures |log| - (i + 1) >= h
      {
        assert i < r.pos || i < start;
      }
    } else {
      var i :| |log| - h <= i < start && Permitted(access, log[i]) && i !in r.delivered;
      assert i !in r'.delivered && i < r'.pos;
    }
  }

  /** An evaluation of the wait predicate never loses a sample the ring still holds, overtaken or not. */
  lemma EvaluateSkipsOnlyOverwritten(log: seq<Entry>, r: Reader, h: nat)
    requires LegalCapacity(h) && r.pos <= |log| && SkipsOnlyOverwritten(log, r, h)
    ensures SkipsOnlyOverwritten(log, EvaluateReader(log, r, h), h)
  {
    if r.pos < |log| {
      SlotContentIsRetained(|log|, h, r.pos);
      var r' := EvaluateReader(log, r, h);
      forall k | 0 <= k < r'.pos && Permitted(RoleOf(r.key).read, log[k]) && k !in r'.delivered
        ensures |log| - (k + 1) >= h
      {
        assert k !in r.delivered by {
          assert k in r.delivered ==> k in r'.delivered;
        }
      }
    }
  }

  ghost predicate AllPlaced(w: World) {
    forall i :: 0 <= i < |w.readers| ==> w.readers[i].pos <= |w.log|
  }

  ghost predicate AllSkipOnlyOverwritten(w: World, h: nat) {
    forall i :: 0 <= i < |w.readers| ==> SkipsOnlyOverwritten(w.log, w.readers[i], h)
  }

  ghost predicate EventIsSafe(w: World, e: Event, h: nat)
    requires LegalCapacity(h) && AllPlaced(w)
  {
    e.Scan? && e.i < |w.readers| ==> ScanIsSafe(w.log, w.readers[e.i], h)
  }

  lemma StepKeepsPlaced(w: World, e: Event, h: nat)
    requires LegalCapacity(h) && AllPlaced(w)
    ensures AllPlaced(Step(w, e, h))
  {
  }

  lemma {:induction false} RunKeepsPlaced(w: World, events: seq<Event>, h: nat)
    requires LegalCapacity(h) && AllPlaced(w)
    ensures AllPlaced(Run(w, events, h))
    decreases |events|
  {
    if events != [] {
      StepKeepsPlaced(w, events[0], h);
      RunKeepsPlaced(Step(w, events[0], h), events[1..], h);
    }
  }

  lemma StepSkipsOnlyOverwrittenIff(w: World, e: Event, h: nat)
    requires LegalCapacity(h) && AllPlaced(w) && AllSkipOnlyOverwritten(w, h)
    ensures AllSkipOnlyOverwritten(Step(w, e, h), h) <==> EventIsSafe(w, e, h)
  {
    hide ScanReader, EvaluateReader, ScanIsSafe;
    var w' := Step(w, e, h);
    match e
    case Publish(_, _) =>
      forall i | 0 <= i < |w'.readers| ensures SkipsOnlyOverwritten(w'.log, w'.readers[i], h) {
        assert SkipsOnlyOverwritten(w.log, w.readers[i], h);
      }
    case Subscribe(_) =>
      forall i | 0 <= i < |w'.readers| ensures SkipsOnlyOverwritten(w'.log, w'.readers[i], h) {
        assert i < |w.readers| ==> SkipsOnlyOverwritten(w.log, w.readers[i], h);
      }
    case Scan(i) =>
      if i < |w.readers| {
        ScanSkipsOnlyOverwritten(w.log, w.readers[i], h);
        OneReaderSteps(w, w', i, h);
      }
    case Evaluate(i) =>
      if i < |w.readers| {
        EvaluateSkipsOnlyOverwritten(w.log, w.readers[i], h);
        OneReaderSteps(w, w', i, h);
      }
  }

  lemma OneReaderSteps(w: World, w': World, i: nat, h: nat)
    requires i < |w.readers| == |w'.readers| && w'.log == w.log && AllSkipOnlyOverwritten(w, h)
    requires forall j :: 0 <= j < |w.readers| && j != i ==> w'.readers[j] == w.readers[j]
    ensures AllSkipOnlyOverwritten(w', h) <==> SkipsOnlyOverwritten(w'.log, w'.readers[i], h)
  {
  }

  // In every state of the run, every reader has lost only what the ring had overwritten.
  ghost predicate LosesOnlyOverwritten(w: World, events: seq<Event>, h: nat)
    requires LegalCapacity(h)
    decreases |events|
  {
    AllSkipOnlyOverwritten(w, h) && (events != [] ==> LosesOnlyOverwritten(Step(w, events[0], h), events[1..], h))
  }

  // Every scan of the run is safe.
  ghost predicate ScansAreSafe(w: World, events: seq<Event>, h: nat)
    requires LegalCapacity(h) && AllPlaced(w)
    decreases |events|
  {
    StepKeepsPlacedIfAny(w, events, h);
    events != [] ==> EventIsSafe(w, events[0], h) && ScansAreSafe(Step(w, events[0], h), events[1..], h)
  }

  lemma StepKeepsPlacedIfAny(w: World, events: seq<Event>, h: nat)
    requires LegalCapacity(h) && AllPlaced(w)
    ensures events != [] ==> AllPlaced(Step(w, events[0], h))
  {
    if events != [] {
      StepKeepsPlaced(w, events[0], h);
    }
  }

  lemma {:induction false} RunLosesOnlyOverwrittenIff(w: World, events: seq<Event>, h: nat)
    requires LegalCapacity(h) && AllPlaced(w) && AllSkipOnlyOverwritten(w, h)
    ensures LosesOnlyOverwritten(w, events, h) <==> ScansAreSafe(w, events, h)
    ensures ScansAreSafe(w, events, h) ==> AllSkipOnlyOverwritten(Run(w, events, h), h)
    decreases |events|
  {
    hide EventIsSafe, Step, AllSkipOnlyOverwritten, AllPlaced;
    if events != [] {
      StepKeepsPlaced(w, events[0], h);
      StepSkipsOnlyOverwrittenIff(w, events[0], h);
      if EventIsSafe(w, events[0], h) {
        RunLosesOnlyOverwrittenIff(Step(w, events[0], h), events[1..], h);
      } else {
        assert !AllSkipOnlyOverwritten(Step(w, events[0], h), h);
      }
    }
  }

  /** Loss over whole runs, exactly: in every state, for any number of writers and readers, a permitted
      sample was passed over only if at least h later ones had been written, iff every scan is safe. No
      wait endangers this. */
  lemma LossIsBoundedIff(events: seq<Event>, h: nat)
    requires LegalCapacity(h)
    ensures LosesOnlyOverwritten(EMPTY, events, h) <==> ScansAreSafe(EMPTY, events, h)
  {
    RunLosesOnlyOverwrittenIff(EMPTY, events, h);
  }

  // Every scan of the event finds its reader less than one turn of the counter behind.
  predicate Timely(w: World, e: Event) {
    e.Scan? && e.i < |w.readers| ==> |w.log| - w.readers[e.i].pos < MAX
  }

  ghost predicate TimelyRun(w: World, events: seq<Event>, h: nat)
    requires LegalCapacity(h)
    decreases |events|
  {
    events != [] ==> Timely(w, events[0]) && TimelyRun(Step(w, events[0], h), events[1..], h)
  }

  lemma {:induction false} TimelyScansAreSafe(w: World, events: seq<Event>, h: nat)
    requires LegalCapacity(h) && AllPlaced(w) && TimelyRun(w, events, h)
    ensures ScansAreSafe(w, events, h)
    decreases |events|
  {
    if events != [] {
      StepKeepsPlaced(w, events[0], h);
      TimelyScansAreSafe(Step(w, events[0], h), events[1..], h);
    }
  }

  // ---------------------------------------------------------------- order

  ghost predicate Ascends(r: Reader) {
    forall a, b :: 0 <= a < b < |r.delivered| ==> r.delivered[a] < r.delivered[b]
  }

  // Delivered places ascend strictly and lie behind the reader's place.
  ghost predicate InOrder(log: seq<Entry>, r: Reader) {
    && r.pos <= |log|
    && Ascends(r)
    && (forall a :: 0 <= a < |r.delivered| ==> r.delivered[a] < r.pos)
  }

  // The ring has overtaken the reader, and the slot it steps to holds a later sample that it may see.
  predicate Overtaken(log: seq<Entry>, r: Reader, h: nat)
    requires LegalCapacity(h)
  {
    && r.pos < |log|
    && |log| - r.pos > h
    && VisibleLag(log, r.pos) != 0
    && (SlotContentIsRetained(|log|, h, r.pos);
        Permitted(RoleOf(r.key).read, log[SlotContent(|log|, h, r.pos)]))
  }

  lemma ScanKeepsOrder(log: seq<Entry>, r: Reader, h: nat)
    requires LegalCapacity(h) && InOrder(log, r)
    ensures InOrder(log, ScanReader(log, r, h))
  {
  }

  /** One evaluation of the wait predicate leaves all deliveries behind the reader exactly when the reader
      is not overtaken. */
  lemma EvaluateKeepsOrderIffNotOvertaken(log: seq<Entry>, r: Reader, h: nat)
    requires LegalCapacity(h) && InOrder(log, r)
    ensures InOrder(log, EvaluateReader(log, r, h)) <==> !Overtaken(log, r, h)
    ensures Ascends(EvaluateReader(log, r, h))
  {
    if r.pos < |log| {
      SlotContentIsRetained(|log|, h, r.pos);
      var r', k := EvaluateReader(log, r, h), SlotContent(|log|, h, r.pos);
      if VisibleLag(log, r.pos) != 0 && Permitted(RoleOf(r.key).read, log[k]) {
        assert r'.delivered[|r.delivered|] == k;
      }
    }
  }

  /** What the client of an overtaken wait sees: with any further samples written before its next read,
      that read breaks the strict order exactly when the ring still holds the sample read ahead. */
  lemma NextReadBreaksOrderIff(log: seq<Entry>, more: seq<Entry>, r: Reader, h: nat)
    requires LegalCapacity(h) && InOrder(log, r) && |log + more| - r.pos < MAX
    ensures Ascends(ScanReader(log + more, EvaluateReader(log, r, h), h))
            <==> !(Overtaken(log, r, h) && |log + more| - SlotContent(|log|, h, r.pos) <= h)
  {
    hide EvaluateReader;
    var mid, log' := EvaluateReader(log, r, h), log + more;
    EvaluateKeepsOrderIffNotOvertaken(log, r, h);
    EvaluatedReader(log, r, h);
    if Overtaken(log, r, h) {
      SlotContentIsRetained(|log|, h, r.pos);
      AheadScan(log', mid, h);
      ScanStartsBehindRing(log', mid.pos, h);
    } else {
      ScanKeepsOrder(log', mid, h);
    }
  }

  // What an evaluation leaves of a reader in order.
  lemma EvaluatedReader(log: seq<Entry>, r: Reader, h: nat)
    requires LegalCapacity(h) && InOrder(log, r)
    ensures var r' := EvaluateReader(log, r, h);
            && r'.key == r.key && r.pos <= r'.pos <= |log|
            && (Overtaken(log, r, h) ==>
                  && r'.pos == r.pos + 1
                  && r'.delivered == r.delivered + [SlotContent(|log|, h, r.pos)])
  {
  }

  lemma ScanStartsBehindRing(log: seq<Entry>, pos: nat, h: nat)
    requires pos <= |log| && 1 <= h < MAX && |log| - pos < MAX
    ensures ScanStart(log, pos, h) == if |log| - pos >= h then |log| - h else pos
  {
  }

  // ---------------------------------------------------------------- order over runs

  // The last sample delivered is one the reader has not come to yet.
  predicate ReadAhead(r: Reader) {
    r.delivered != [] && r.delivered[|r.delivered| - 1] >= r.pos
  }

  // The scan starts at or before the sample read ahead, so it finds that one or an older one.
  predicate Rereads(log: seq<Entry>, r: Reader, h: nat)
    requires LegalCapacity(h)
  {
    r.pos <= |log| && ReadAhead(r) && ScanStart(log, r.pos, h) <= r.delivered[|r.delivered| - 1]
  }

  // In order, except that the last delivery may be ahead.
  ghost predicate Settled(log: seq<Entry>, r: Reader) {
    && r.pos <= |log|
    && Ascends(r)
    && (forall a :: 0 <= a < |r.delivered| - 1 ==> r.delivered[a] < r.pos)
    && (forall a :: 0 <= a < |r.delivered| ==>
          r.delivered[a] < |log| && Permitted(RoleOf(r.key).read, log[r.delivered[a]]))
  }

  lemma AheadScan(log: seq<Entry>, r: Reader, h: nat)
    requires LegalCapacity(h) && r.pos <= |log| && ReadAhead(r) && Ascends(r)
    requires var last := r.delivered[|r.delivered| - 1];
             last < |log| && Permitted(RoleOf(r.key).read, log[last])
    ensures Ascends(ScanReader(log, r, h)) <==> !Rereads(log, r, h)
  {
    var n, r' := |r.delivered|, ScanReader(log, r, h);
    var k := ScanResult(log, r.pos, h, RoleOf(r.key).read);
    if k < |log| {
      assert r'.delivered[n - 1] == r.delivered[n - 1] && r'.delivered[n] == k;
    }
  }

  lemma ScanKeepsSettledIff(log: seq<Entry>, r: Reader, h: nat)
    requires LegalCapacity(h) && Settled(log, r)
    ensures Ascends(ScanReader(log, r, h)) <==> !Rereads(log, r, h)
    ensures !Rereads(log, r, h) ==> Settled(log, ScanReader(log, r, h))
  {
    if ReadAhead(r) {
      AheadScan(log, r, h);
    }
  }

  lemma EvaluateKeepsSettled(log: seq<Entry>, r: Reader, h: nat)
    requires LegalCapacity(h) && Settled(log, r) && !ReadAhead(r)
    ensures Settled(log, EvaluateReader(log, r, h))
  {
    if r.pos < |log| {
      SlotContentIsRetained(|log|, h, r.pos);
    }
  }

  ghost predicate AllSettled(w: World) {
    forall i :: 0 <= i < |w.readers| ==> Settled(w.log, w.readers[i])
  }

  ghost predicate AllAscend(w: World) {
    forall i :: 0 <= i < |w.readers| ==> Ascends(w.readers[i])
  }

  // A read call scans first: once a wait has returned a sample, no wait of that reader comes before a scan.
  predicate BeginsWithScan(w: World, e: Event) {
    e.Evaluate? && e.i < |w.readers| ==> !ReadAhead(w.readers[e.i])
  }

  predicate EventRereads(w: World, e: Event, h: nat)
    requires LegalCapacity(h)
  {
    e.Scan? && e.i < |w.readers| && Rereads(w.log, w.readers[e.i], h)
  }

  ghost predicate ReadCalls(w: World, events: seq<Event>, h: nat)
    requires LegalCapacity(h)
    decreases |events|
  {
    events != [] ==> BeginsWithScan(w, events[0]) && ReadCalls(Step(w, events[0], h), events[1..], h)
  }

  // No scan of the run comes back to a sample read ahead.
  ghost predicate NeverRereads(w: World, events: seq<Event>, h: nat)
    requires LegalCapacity(h)
    decreases |events|
  {
    events != [] ==> !EventRereads(w, events[0], h) && NeverRereads(Step(w, events[0], h), events[1..], h)
  }

  lemma StepKeepsSettledIff(w: World, e: Event, h: nat)
    requires LegalCapacity(h) && AllSettled(w) && BeginsWithScan(w, e)
    ensures AllAscend(Step(w, e, h)) <==> !EventRereads(w, e, h)
    ensures !EventRereads(w, e, h) ==> AllSettled(Step(w, e, h))
  {
    hide ScanReader, EvaluateReader, Rereads, ReadAhead;
    var w' := Step(w, e, h);
    match e
    case Publish(_, _) =>
      forall i | 0 <= i < |w'.readers| ensures Settled(w'.log, w'.readers[i]) {
        assert Settled(w.log, w.readers[i]);
      }
    case Subscribe(_) =>
    case Scan(i) =>
      if i < |w.readers| {
        ScanKeepsSettledIff(w.log, w.readers[i], h);
        assert w'.readers[i] == ScanReader(w.log, w.readers[i], h);
      }
    case Evaluate(i) =>
      if i < |w.readers| {
        EvaluateKeepsSettled(w.log, w.readers[i], h);
      }
  }

  // What was delivered stays delivered.
  lemma StepKeepsDisorder(w: World, e: Event, h: nat)
    requires LegalCapacity(h) && !AllAscend(w)
    ensures !AllAscend(Step(w, e, h))
  {
    var i :| 0 <= i < |w.readers| && !Ascends(w.readers[i]);
    var r, r' := w.readers[i], Step(w, e, h).readers[i];
    var a, b :| 0 <= a < b < |r.delivered| && r.delivered[a] >= r.delivered[b];
    assert |r'.delivered| >= |r.delivered| && r'.delivered[a] == r.delivered[a] && r'.delivered[b] == r.delivered[b];
  }

  lemma {:induction false} RunKeepsDisorder(w: World, events: seq<Event>, h: nat)
    requires LegalCapacity(h) && !AllAscend(w)
    ensures !AllAscend(Run(w, events, h))
    decreases |events|
  {
    if events != [] {
      StepKeepsDisorder(w, events[0], h);
      RunKeepsDisorder(Step(w, events[0], h), events[1..], h);
    }
  }

  lemma {:induction false} RunAscendsIff(w: World, events: seq<Event>, h: nat)
    requires LegalCapacity(h) && AllSettled(w) && ReadCalls(w, events, h)
    ensures AllAscend(Run(w, events, h)) <==> NeverRereads(w, events, h)
    decreases |events|
  {
    hide Step, EventRereads, BeginsWithScan;
    if events != [] {
      StepKeepsSettledIff(w, events[0], h);
      if EventRereads(w, events[0], h) {
        RunKeepsDisorder(Step(w, events[0], h), events[1..], h);
      } else {
        RunAscendsIff(Step(w, events[0], h), events[1..], h);
      }
    }
  }

  /** Order over whole runs, exactly: what every client has received ascends strictly, in any run of read
      calls, iff no scan starts at or before a sample that an overtaken wait of its reader read ahead. */
  lemma DeliveriesAscendIff(events: seq<Event>, h: nat)
    requires LegalCapacity(h) && ReadCalls(EMPTY, events, h)
    ensures AllAscend(Run(EMPTY, events, h)) <==> NeverRereads(EMPTY, events, h)
  {
    RunAscendsIff(EMPTY, events, h);
  }

  ghost predicate AllInOrder(w: World) {
    forall i :: 0 <= i < |w.readers| ==> InOrder(w.log, w.readers[i])
  }

  // The event is a wait that the ring has overtaken.
  predicate WaitIsOvertaken(w: World, e: Event, h: nat)
    requires LegalCapacity(h)
  {
    e.Evaluate? && e.i < |w.readers| && Overtaken(w.log, w.readers[e.i], h)
  }

  lemma StepKeepsOrderIff(w: World, e: Event, h: nat)
    requires LegalCapacity(h) && AllInOrder(w)
    ensures AllInOrder(Step(w, e, h)) <==> !WaitIsOvertaken(w, e, h)
  {
    hide ScanReader, EvaluateReader, Overtaken;
    var w' := Step(w, e, h);
    match e
    case Publish(_, _) =>
      assert forall i :: 0 <= i < |w.readers| ==> InOrder(w.log, w.readers[i]);
    case Subscribe(_) =>
    case Scan(i) =>
      if i < |w.readers| { ScanKeepsOrder(w.log, w.readers[i], h); }
    case Evaluate(i) =>
      if i < |w.readers| {
        EvaluateKeepsOrderIffNotOvertaken(w.log, w.readers[i], h);
        assert w'.readers[i] == EvaluateReader(w.log, w.readers[i], h);
      }
  }

  // In every state of the run, every reader's deliveries ascend and lie behind it.
  ghost predicate StaysInOrder(w: World, events: seq<Event>, h: nat)
    requires LegalCapacity(h)
    decreases |events|
  {
    AllInOrder(w) && (events != [] ==> StaysInOrder(Step(w, events[0], h), events[1..], h))
  }

  ghost predicate NoWaitIsOvertaken(w: World, events: seq<Event>, h: nat)
    requires LegalCapacity(h)
    decreases |events|
  {
    events != [] ==> !WaitIsOvertaken(w, events[0], h) && NoWaitIsOvertaken(Step(w, events[0], h), events[1..], h)
  }

  lemma {:induction false} RunStaysInOrderIff(w: World, events: seq<Event>, h: nat)
    requires LegalCapacity(h) && AllInOrder(w)
    ensures StaysInOrder(w, events, h) <==> NoWaitIsOvertaken(w, events, h)
    ensures NoWaitIsOvertaken(w, events, h) ==> AllInOrder(Run(w, events, h))
    decreases |events|
  {
    hide Step, WaitIsOvertaken, AllInOrder;
    if events != [] {
      StepKeepsOrderIff(w, events[0], h);
      if !WaitIsOvertaken(w, events[0], h) {
        RunStaysInOrderIff(Step(w, events[0], h), events[1..], h);
      }
    }
  }

  /** Over whole runs, exactly: in every state the deliveries of every reader ascend strictly and lie
      behind its place, iff no wait is overtaken by the ring. */
  lemma OrderIsKeptIff(events: seq<Event>, h: nat)
    requires LegalCapacity(h)
    ensures StaysInOrder(EMPTY, events, h) <==> NoWaitIsOvertaken(EMPTY, events, h)
  {
    RunStaysInOrderIff(EMPTY, events, h);
  }

  /** Delivery over whole runs, any number of writers and readers: every sample returned is one the reader
      may see; while no scan comes a whole counter turn late, a permitted sample is passed over only when
      at least h later samples had been written; while no wait is overtaken by the ring, what a reader
      returns ascends strictly. The three hold independently of each other. */
  lemma Delivery(events: seq<Event>, h: nat, i: nat)
    requires LegalCapacity(h) && i < |Run(EMPTY, events, h).readers|
    ensures var w := Run(EMPTY, events, h);
            && ReadsOnlyPermitted(w.log, w.readers[i])
            && (TimelyRun(EMPTY, events, h) ==> SkipsOnlyOverwritten(w.log, w.readers[i], h))
            && (NoWaitIsOvertaken(EMPTY, events, h) ==> InOrder(w.log, w.readers[i]))
  {
    RunKeepsSourced(EMPTY, events, h);
    RunLosesOnlyOverwrittenIff(EMPTY, events, h);
    if TimelyRun(EMPTY, events, h) {
      TimelyScansAreSafe(EMPTY, events, h);
    }
    RunStaysInOrderIff(EMPTY, events, h);
  }

  /** Who is heard, over whole runs: of the samples the ring still holds, a reader that has passed one returned
      it iff its writer reaches the reader, as long as no scan comes a whole counter turn late. */
  lemma DeliveredIffReached(events: seq<Event>, h: nat, i: nat, k: nat)
    requires LegalCapacity(h) && TimelyRun(EMPTY, events, h)
    requires var w := Run(EMPTY, events, h);
             i < |w.readers| && k < w.readers[i].pos && |w.log| - (k + 1) < h
    ensures var w := Run(EMPTY, events, h);
            && k < |w.log| == |w.writers|
            && (k in w.readers[i].delivered <==> Reaches(w.writers[k], w.readers[i].key))
  {
    var w := Run(EMPTY, events, h);
    RunKeepsSourced(EMPTY, events, h);
    RunKeepsPlaced(EMPTY, events, h);
    Delivery(events, h, i);
    AccessByKeys(w.writers[k], w.readers[i].key);
    assert ReadsOnlyPermitted(w.log, w.readers[i]) && SkipsOnlyOverwritten(w.log, w.readers[i], h);
  }

  // ---------------------------------------------------------------- waiting past forbidden samples

  /** An evaluation returns nothing, although a permitted unread sample is there, exactly when the next
      slot holds a sample the reader may not see, or the reader is whole turns of the counter late. */
  lemma EvaluateReturnsNothingIff(log: seq<Entry>, r: Reader, h: nat)
    requires LegalCapacity(h) && r.pos <= |log|
    requires FirstPermitted(log, r.pos, RoleOf(r.key).read) < |log|
    ensures EvaluateReader(log, r, h).delivered == r.delivered
            <==> (VisibleLag(log, r.pos) == 0
                  || !Permitted(RoleOf(r.key).read, log[SlotContent(|log|, h, r.pos)]))
    ensures |log| - r.pos <= h ==>
              (EvaluateReader(log, r, h).delivered == r.delivered <==> !Permitted(RoleOf(r.key).read, log[r.pos]))
  {
    SlotContentIsRetained(|log|, h, r.pos);
    var r' := EvaluateReader(log, r, h);
    assert r'.delivered == r.delivered || |r'.delivered| == |r.delivered| + 1;
  }

  function EvaluateTimes(log: seq<Entry>, r: Reader, h: nat, n: nat): Reader
    requires LegalCapacity(h)
    decreases n
  {
    if n == 0 then r else EvaluateTimes(log, EvaluateReader(log, r, h), h, n - 1)
  }

  /** Each forbidden sample costs a waiting reader one evaluation: with n of them before the first permitted
      one, n evaluations return nothing and the next one returns that sample. */
  lemma {:induction false} ForbiddenSamplesCostEvaluations(log: seq<Entry>, r: Reader, h: nat)
    requires LegalCapacity(h) && |log| - h <= r.pos <= |log|
    requires FirstPermitted(log, r.pos, RoleOf(r.key).read) < |log|
    ensures var k := FirstPermitted(log, r.pos, RoleOf(r.key).read);
            && EvaluateTimes(log, r, h, k - r.pos) == r.(pos := k)
            && EvaluateTimes(log, r, h, k - r.pos + 1) == r.(pos := k + 1, delivered := r.delivered + [k])
    decreases |log| - r.pos
  {
    SlotContentIsRetained(|log|, h, r.pos);
    var r' := EvaluateReader(log, r, h);
    if Permitted(RoleOf(r.key).read, log[r.pos]) {
      assert EvaluateTimes(log, r, h, 1) == EvaluateTimes(log, r', h, 0);
    } else {
      assert r' == r.(pos := r.pos + 1);
      ForbiddenSamplesCostEvaluations(log, r', h);
    }
  }

  const FORWARDER_KEY: ClientKey := 0xEA00_0001

  // The internal client publishes, then an ordinary one, before a forwarder's reader wakes.
  const SLEPT_THROUGH: seq<Event> :=
    [Subscribe(FORWARDER_KEY), Scan(0), Publish(INTERNAL_CLIENT_KEY, []), Publish(DEMO_KEY, []), Evaluate(0)]

  /** Such a wait: the reader may see the second sample, evaluates once, and returns nothing. */
  lemma WaitSleepsThroughSample()
    ensures var w := Run(EMPTY, SLEPT_THROUGH, HISTORY_SIZE);
            && w.readers == [Reader(FORWARDER_KEY, 1, [])]
            && |w.log| == 2 && FirstPermitted(w.log, 1, RoleOf(FORWARDER_KEY).read) == 1
  {
    var h := HISTORY_SIZE;
    var w1 := Step(EMPTY, SLEPT_THROUGH[0], h);
    var w2 := Step(w1, SLEPT_THROUGH[1], h);
    var w3 := Step(w2, SLEPT_THROUGH[2], h);
    var w4 := Step(w3, SLEPT_THROUGH[3], h);
    assert w2.readers == [Reader(FORWARDER_KEY, 0, [])];
    assert w4.log == [Entry([], External), Entry([], Internal)];
    SlotContentIsRetained(2, h, 0);
    var w5 := Step(w4, SLEPT_THROUGH[4], h);
    assert w5.readers == [Reader(FORWARDER_KEY, 1, [])];
    assert Run(EMPTY, SLEPT_THROUGH, h) == Run(w1, SLEPT_THROUGH[1..], h);
    assert Run(w1, SLEPT_THROUGH[1..], h) == Run(w2, SLEPT_THROUGH[1..][1..], h);
    assert Run(w2, SLEPT_THROUGH[1..][1..], h) == Run(w3, SLEPT_THROUGH[1..][1..][1..], h);
    assert SLEPT_THROUGH[1..][1..][1..] == [SLEPT_THROUGH[3], SLEPT_THROUGH[4]];
    assert [SLEPT_THROUGH[3], SLEPT_THROUGH[4]][1..] == [SLEPT_THROUGH[4]];
    RunOne(w4, SLEPT_THROUGH[4], h);
  }

  // ---------------------------------------------------------------- an overtaken wait

  const DEMO_KEY: ClientKey := 1

  function Publishes(n: nat): (events: seq<Event>)
    ensures |events| == n
  {
    seq(n, _ => Publish(DEMO_KEY, []))
  }

  lemma {:induction false} RunAppends(w: World, a: seq<Event>, b: seq<Event>, h: nat)
    requires LegalCapacity(h)
    ensures Run(w, a + b, h) == Run(Run(w, a, h), b, h)
    decreases |a|
  {
    if a == [] {
      assert a + b == b;
    } else {
      assert (a + b)[0] == a[0] && (a + b)[1..] == a[1..] + b;
      RunAppends(Step(w, a[0], h), a[1..], b, h);
    }
  }

  lemma RunOne(w: World, e: Event, h: nat)
    requires LegalCapacity(h)
    ensures Run(w, [e], h) == Step(w, e, h)
  {
  }

  lemma {:induction false} RunPublishes(w: World, n: nat, h: nat)
    requires LegalCapacity(h)
    ensures var w' := Run(w, Publishes(n), h);
            && w'.readers == w.readers
            && |w'.log| == |w.log| + n
            && w'.log[..|w.log|] == w.log
            && forall k :: |w.log| <= k < |w'.log| ==> w'.log[k] == Entry([], Internal)
    decreases n
  {
    if n > 0 {
      assert Publishes(n)[1..] == Publishes(n - 1);
      RunPublishes(Step(w, Publishes(n)[0], h), n - 1, h);
    }
  }

  // The scan of the read call finds an empty topic; its wait is overtaken before it is evaluated.
  const OPENING: seq<Event> := [Subscribe(DEMO_KEY), Scan(0)]
  const OVERTAKEN: seq<Event> := OPENING + Publishes(17) + [Evaluate(0)]

  lemma OvertakenWaitReadsAhead()
    ensures var w := Run(EMPTY, OVERTAKEN, HISTORY_SIZE);
            && w.readers == [Reader(DEMO_KEY, 1, [16])]
            && |w.log| == 17 && w.log[16] == Entry([], Internal)
  {
    var h := HISTORY_SIZE;
    var w1 := Step(Step(EMPTY, OPENING[0], h), OPENING[1], h);
    assert OPENING[1..] == [OPENING[1]];
    RunOne(Step(EMPTY, OPENING[0], h), OPENING[1], h);
    RunPublishes(w1, 17, h);
    var w2 := Run(w1, Publishes(17), h);
    RunAppends(EMPTY, OPENING, Publishes(17), h);
    RunAppends(EMPTY, OPENING + Publishes(17), [Evaluate(0)], h);
    RunOne(w2, Evaluate(0), h);
    assert w2.readers == [Reader(DEMO_KEY, 0, [])];
    EvaluatesAhead(w2.log);
  }

  lemma EvaluatesAhead(log: seq<Entry>)
    requires |log| == 17 && log[16] == Entry([], Internal)
    ensures EvaluateReader(log, Reader(DEMO_KEY, 0, []), HISTORY_SIZE) == Reader(DEMO_KEY, 1, [16])
  {
  }

  /** The same sample twice: with the ring of 16, a reader whose wait is overtaken by 17 writes
      before it evaluates its predicate returns the seventeenth sample, and the scan of its next
      read call returns that sample again once fifteen more have been written. */
  lemma OvertakenWaitDeliversTwice()
    ensures var w := Run(EMPTY, OVERTAKEN + Publishes(15) + [Scan(0)], HISTORY_SIZE);
            |w.readers| == 1 && w.readers[0].delivered == [16, 16]
  {
    var h := HISTORY_SIZE;
    var w3 := Run(EMPTY, OVERTAKEN, h);
    OvertakenWaitReadsAhead();
    RunPublishes(w3, 15, h);
    var w4 := Run(w3, Publishes(15), h);
    RunAppends(EMPTY, OVERTAKEN, Publishes(15), h);
    RunAppends(EMPTY, OVERTAKEN + Publishes(15), [Scan(0)], h);
    RunOne(w4, Scan(0), h);
    assert w4.log[16] == w4.log[..17][16];
    ScansAgain(w4.log);
  }

  lemma ScansAgain(log: seq<Entry>)
    requires |log| == 32 && log[16] == Entry([], Internal)
    ensures ScanReader(log, Reader(DEMO_KEY, 1, [16]), HISTORY_SIZE) == Reader(DEMO_KEY, 17, [16, 16])
  {
  }
}
