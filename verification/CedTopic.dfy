/** The shared topic of the embedded middleware: a fixed ring of samples under one wrapping
    16-bit write counter, read by any number of readers that each hold a wrapping cursor.
    The ring is specified by the unbounded log of everything ever written. */
module CedTopic {
  import opened Words
  import opened SeqNums
  import opened CedAccess

  type Payload = seq<bv8>

  datatype Entry = Entry(data: Payload, src: TopicSource)

  // The slots of history_ and srcs_; the agent compiles it to 16.
  const HISTORY_SIZE: nat := 16

  predicate LegalCapacity(h: nat) {
    1 <= h <= 32768 && MAX % h == 0
  }

  // The counter value after n writes, and the cursor of a reader that has consumed n entries.
  function CursorAt(n: nat): u16 {
    (n + 0xFFFF) % MAX
  }

  predicate Permitted(access: ReadAccess, e: Entry) {
    CheckReadAccess(access, e.src)
  }

  /** The oldest permitted entry at or after `from`, or the end of the log. */
  function FirstPermitted(log: seq<Entry>, from: nat, access: ReadAccess): (k: nat)
    requires from <= |log|
    ensures from <= k <= |log|
    ensures k < |log| ==> Permitted(access, log[k])
    ensures forall i :: from <= i < k ==> !Permitted(access, log[i])
    decreases |log| - from
  {
    if from == |log| || Permitted(access, log[from]) then from
    else FirstPermitted(log, from + 1, access)
  }

  // The lag a reader can compute: the true lag modulo the counter range.
  function VisibleLag(log: seq<Entry>, pos: nat): (d: nat)
    requires pos <= |log|
    ensures d <= |log| - pos && d < MAX
  {
    (|log| - pos) % MAX
  }

  // Where a locked scan starts: the reader's place, moved up to the oldest retained entry when lapped.
  function ScanStart(log: seq<Entry>, pos: nat, h: nat): (from: nat)
    requires pos <= |log| && 1 <= h
    ensures pos <= from <= |log|
  {
    var d := VisibleLag(log, pos);
    if d >= h then |log| - h else |log| - d
  }

  function ScanResult(log: seq<Entry>, pos: nat, h: nat, access: ReadAccess): nat
    requires pos <= |log| && 1 <= h
  {
    FirstPermitted(log, ScanStart(log, pos, h), access)
  }

  /** What a reader of an unbounded log would get if it could lose only entries older than
      the last h: the oldest unread, retained, permitted entry. */
  function OldestUnread(log: seq<Entry>, pos: nat, h: nat, access: ReadAccess): nat
    requires pos <= |log| && 1 <= h
  {
    FirstPermitted(log, if |log| - pos >= h then |log| - h else pos, access)
  }

  // The entry now in the slot that entry pos was written to.
  function SlotContent(n: nat, h: nat, pos: nat): int
    requires 1 <= h && pos < n
  {
    pos + h * ((n - 1 - pos) / h)
  }

  /** A scan serves exactly the oldest unread retained entry, unless the reader fell a whole
      turn of the counter behind, its visible lag is below the ring size, and a permitted
      entry sits among the retained ones the visible lag hides. */
  lemma ScanRefinesLog(log: seq<Entry>, pos: nat, h: nat, access: ReadAccess)
    requires pos <= |log| && LegalCapacity(h)
    ensures ScanResult(log, pos, h, access) == OldestUnread(log, pos, h, access)
            <==> (|log| - pos < MAX
                  || VisibleLag(log, pos) >= h
                  || forall i :: |log| - h <= i < |log| - VisibleLag(log, pos) ==> !Permitted(access, log[i]))
  {
  }

  /** The condition is needed: a reader that has read nothing when the counter comes round for the first
      time is told there is nothing, whatever the ring holds. */
  lemma FullTurnHidesEverything(log: seq<Entry>, h: nat, access: ReadAccess)
    requires LegalCapacity(h) && |log| == 0x1_0000
    requires forall i :: 0 <= i < |log| ==> Permitted(access, log[i])
    ensures ScanOutcome(log, 0, h, access) == Outcome(|log|, None)
    ensures OldestUnread(log, 0, h, access) == |log| - h
  {
  }

  // ---------------------------------------------------------------- what a read does

  // The reader's new place in the log, and the place of the entry it returns.
  datatype Outcome = Outcome(pos: nat, served: Option<nat>)

  // The locked scan of a read.
  function ScanOutcome(log: seq<Entry>, pos: nat, h: nat, access: ReadAccess): (o: Outcome)
    requires pos <= |log| && 1 <= h
    ensures o.served.Some? ==> o.served.value < |log|
  {
    var k := ScanResult(log, pos, h, access);
    if k < |log| then Outcome(k + 1, Some(k)) else Outcome(|log|, None)
  }

  // One evaluation of the wait predicate: a single step, to whatever the next slot holds.
  function EvaluateOutcome(log: seq<Entry>, pos: nat, h: nat, access: ReadAccess): (o: Outcome)
    requires pos <= |log| && 1 <= h
    ensures o.served.Some? ==> o.served.value < |log|
  {
    if VisibleLag(log, pos) == 0 then Outcome(pos, None)
    else
      SlotContentIsRetained(|log|, h, pos);
      var k := SlotContent(|log|, h, pos);
      Outcome(pos + 1, if Permitted(access, log[k]) then Some(k) else None)
  }

  // A read step returned what the outcome says.
  ghost predicate Returns(log: seq<Entry>, o: Outcome, found: bool, data: Payload)
    requires o.served.Some? ==> o.served.value < |log|
  {
    found == o.served.Some? && (found ==> data == log[o.served.value].data)
  }

  // ---------------------------------------------------------------- slot arithmetic

  lemma ModAddMultiple(x: int, h: nat, q: int)
    requires 1 <= h
    ensures (x + h * q) % h == x % h
  {
    var d, r := x / h, x % h;
    assert x == h * d + r;
    assert x + h * q == h * (d + q) + r;
    ModIsRemainder(x + h * q, h, d + q, r);
  }

  lemma MulBounds(h: nat, q: int)
    ensures q >= 1 ==> h * q >= h
    ensures q <= 0 ==> h * q <= 0
    ensures q <= -1 ==> h * q <= 0 - h
  {
  }

  lemma ModIsRemainder(x: int, h: nat, d: int, r: int)
    requires 0 <= r < h
    requires x == h * d + r
    ensures x % h == r
  {
    var d', r' := x / h, x % h;
    var e := d - d';
    assert h * e == h * d - h * d' == r' - r;
    MulBounds(h, e);
    assert e == 0;
  }

  // Wrapping the counter does not change the slot, because the ring size divides its range.
  lemma SlotSurvivesWrap(k: int, h: nat)
    requires LegalCapacity(h)
    ensures (k % MAX) % h == k % h
  {
    var c := MAX / h;
    assert MAX == h * c;
    assert k % MAX == k - MAX * (k / MAX);
    assert MAX * (k / MAX) == h * (c * (k / MAX));
    assert k % MAX == k + h * (-(c * (k / MAX)));
    ModAddMultiple(k, h, -(c * (k / MAX)));
  }

  lemma SlotsAreDistinctWithinRing(i: int, j: int, h: nat)
    requires i < j < i + h
    ensures i % h != j % h
  {
    var a, b := i / h, j / h;
    assert i == h * a + i % h && j == h * b + j % h;
    var e := b - a;
    assert h * e == h * b - h * a;
    MulBounds(h, e);
  }

  lemma SlotContentIsRetained(n: nat, h: nat, pos: nat)
    requires 1 <= h && pos < n
    ensures var k := SlotContent(n, h, pos);
            && pos <= k < n && n - k <= h && k % h == pos % h
            && (k == pos <==> n - pos <= h)
  {
    var q := (n - 1 - pos) / h;
    assert 0 <= n - 1 - pos - h * q < h;
    ModAddMultiple(pos, h, q);
    MulBounds(h, q);
    if n - pos <= h {
      assert q == 0;
    } else {
      assert q >= 1;
    }
  }

  lemma NextCursor(n: nat)
    ensures Increment(CursorAt(n)) == CursorAt(n + 1) == n % MAX
  {
  }

  // ---------------------------------------------------------------- the topic

  class CedGlobalTopic {
    const capacity: nat
    const history: array<Payload>
    const srcs: array<TopicSource>
    var lastWrite: u16
    ghost var log: seq<Entry>

    ghost predicate Valid()
      reads this, history, srcs
    {
      && LegalCapacity(capacity)
      && history.Length == srcs.Length == capacity
      && lastWrite == CursorAt(|log|)
      && forall k :: 0 <= k < |log| && |log| - k <= capacity ==> SlotHolds(k)
    }

    ghost predicate SlotHolds(k: nat)
      requires LegalCapacity(capacity) && history.Length == srcs.Length == capacity
      requires k < |log|
      reads this, history, srcs
    {
      history[k % capacity] == log[k].data && srcs[k % capacity] == log[k].src
    }

    constructor (h: nat)
      requires LegalCapacity(h)
      ensures Valid() && fresh(history) && fresh(srcs)
      ensures capacity == h && log == [] && lastWrite == 0xFFFF
    {
      capacity := h;
      history := new Payload[h](_ => []);
      srcs := new TopicSource[h](_ => Internal);
      lastWrite := 0xFFFF;
      log := [];
    }

    method Write(data: Payload, access: WriteAccess, src: TopicSource) returns (ok: bool)
      requires Valid()
      modifies this, history, srcs
      ensures Valid()
      ensures ok == CheckWriteAccess(access, src)
      ensures log == if ok then old(log) + [Entry(data, src)] else old(log)
    {
      ok := false;
      if CheckWriteAccess(access, src) {
        var index := Increment(lastWrite) % capacity;
        ghost var n := |log|;
        NextCursor(n);
        SlotSurvivesWrap(n, capacity);
        assert index == n % capacity;
        history[index] := data;
        srcs[index] := src;
        lastWrite := Increment(lastWrite);
        log := log + [Entry(data, src)];
        forall k: nat | k < |log| && |log| - k <= capacity
          ensures SlotHolds(k)
        {
          if k < n {
            SlotsAreDistinctWithinRing(k, n, capacity);
            assert old(SlotHolds(k));
          }
        }
        ok := true;
      }
    }

    // Steps the cursor once and copies the sample there if the reader may see it.
    method GetData(lastRead: u16, access: ReadAccess, ghost pos: nat)
      returns (found: bool, data: Payload, cursor: u16)
      requires Valid()
      requires pos < |log| && lastRead == CursorAt(pos)
      ensures cursor == CursorAt(pos + 1)
      ensures var k := SlotContent(|log|, capacity, pos);
              0 <= k < |log| && found == Permitted(access, log[k]) && (found ==> data == log[k].data)
    {
      cursor := Increment(lastRead);
      var index := cursor % capacity;
      NextCursor(pos);
      SlotSurvivesWrap(pos, capacity);
      SlotContentIsRetained(|log|, capacity, pos);
      assert SlotHolds(SlotContent(|log|, capacity, pos));
      found, data := false, [];
      if CheckReadAccess(access, srcs[index]) {
        data := history[index];
        found := true;
      }
    }

    // "Fix last_read": a cursor the ring has lapped is moved to just before the oldest retained entry.
    method RepairCursor(lastRead: u16, ghost pos: nat) returns (cursor: u16)
      requires Valid()
      requires pos <= |log| && lastRead == CursorAt(pos)
      requires lastRead != lastWrite
      ensures ScanStart(log, pos, capacity) < |log| <= ScanStart(log, pos, capacity) + capacity
      ensures cursor == CursorAt(ScanStart(log, pos, capacity))
    {
      cursor := lastRead;
      DistanceIsVisibleLag(|log|, pos);
      LapTestIsExact(lastRead, lastWrite, capacity);
      StartCursor(|log|, VisibleLag(log, pos), capacity, lastRead, lastWrite);
      if Leq(lastRead, SubInt(lastWrite, capacity)) || Gt(lastRead, lastWrite) {
        cursor := SubInt(lastWrite, capacity);
      }
    }

    /** The part of read that holds the lock: repair a lapped cursor, then step until a
        permitted sample or the write counter is reached. */
    method ReadScan(lastRead: u16, access: ReadAccess, ghost pos: nat)
      returns (found: bool, data: Payload, cursor: u16)
      requires Valid()
      requires pos <= |log| && lastRead == CursorAt(pos)
      ensures var o := ScanOutcome(log, pos, capacity, access);
              Returns(log, o, found, data) && cursor == CursorAt(o.pos)
    {
      found, data, cursor := false, [], lastRead;
      DistanceIsVisibleLag(|log|, pos);
      if lastRead != lastWrite {
        cursor := RepairCursor(lastRead, pos);
        found, data, cursor := StepUntilFound(cursor, access, ScanStart(log, pos, capacity));
      }
    }

    // The do-while loop of read.
    method StepUntilFound(lastRead: u16, access: ReadAccess, ghost start: nat)
      returns (found: bool, data: Payload, cursor: u16)
      requires Valid()
      requires start < |log| <= start + capacity && lastRead == CursorAt(start)
      ensures var k := FirstPermitted(log, start, access);
              && found == (k < |log|)
              && (found ==> data == log[k].data && cursor == CursorAt(k + 1))
              && (!found ==> cursor == CursorAt(|log|))
    {
      ghost var at, k := start, FirstPermitted(log, start, access);
      var more := true;
      found, data, cursor := false, [], lastRead;
      while more
        invariant start <= at <= |log| && cursor == CursorAt(at)
        invariant more ==> at < |log| && !found && FirstPermitted(log, at, access) == k
        invariant !more && !found ==> at == |log| == k
        invariant found ==> !more && at == k + 1 <= |log| && data == log[k].data
        decreases |log| - at
      {
        SlotContentIsRetained(|log|, capacity, at);
        found, data, cursor := GetData(cursor, access, at);
        at := at + 1;
        CursorsWithinRing(|log|, at, capacity);
        more := !found && cursor != lastWrite;
      }
    }

    /** The predicate the waiting part of read evaluates, under the lock, on arrival, on
        every wake-up and at the timeout. */
    method WaitPredicate(lastRead: u16, access: ReadAccess, ghost pos: nat)
      returns (found: bool, data: Payload, cursor: u16)
      requires Valid()
      requires pos <= |log| && lastRead == CursorAt(pos)
      ensures var o := EvaluateOutcome(log, pos, capacity, access);
              Returns(log, o, found, data) && cursor == CursorAt(o.pos)
    {
      found, data, cursor := false, [], lastRead;
      DistanceIsVisibleLag(|log|, pos);
      if lastRead != lastWrite {
        found, data, cursor := GetData(lastRead, access, pos);
      }
    }
  }

  lemma DistanceIsVisibleLag(n: nat, pos: nat)
    requires pos <= n
    ensures Distance(CursorAt(pos), CursorAt(n)) == (n - pos) % MAX
    ensures CursorAt(pos) == CursorAt(n) <==> (n - pos) % MAX == 0
  {
  }

  // Within one turn of the counter, equal cursors are equal places.
  lemma CursorsWithinRing(n: nat, pos: nat, h: nat)
    requires pos <= n <= pos + h && h <= 32768
    ensures CursorAt(pos) == CursorAt(n) <==> pos == n
  {
  }

  lemma ModMinus(w: int, x: int)
    ensures (w - x) % MAX == (w % MAX - x) % MAX
  {
  }

  // A cursor d behind the write counter, and the repaired cursor h behind it.
  lemma StartCursor(n: nat, d: nat, h: nat, lastRead: u16, lastWrite: u16)
    requires h <= 32768
    requires lastWrite == CursorAt(n) && d <= n
    requires Distance(lastRead, lastWrite) == d
    ensures lastRead == CursorAt(n - d)
    ensures h <= n ==> SubInt(lastWrite, h) == CursorAt(n - h)
  {
    var w := n + 0xFFFF;
    ModMinus(w, d);
    ModMinus(w, h);
    assert (lastWrite - d) % MAX == lastRead by {
      assert d == if lastRead <= lastWrite then lastWrite - lastRead else lastWrite - lastRead + MAX;
    }
    assert ToU16(h) == h;
  }

  /** One data reader: its own wrapping cursor over the topic it was created on. */
  class CedDataReader {
    const topic: CedGlobalTopic
    const readAccess: ReadAccess
    var lastRead: u16
    ghost var pos: nat

    ghost predicate Valid()
      reads this, topic, topic.history, topic.srcs
    {
      topic.Valid() && pos <= |topic.log| && lastRead == CursorAt(pos)
    }

    constructor (topic: CedGlobalTopic, access: ReadAccess)
      requires topic.Valid()
      ensures Valid() && pos == 0
      ensures this.topic == topic && readAccess == access
    {
      this.topic := topic;
      readAccess := access;
      lastRead := 0xFFFF;
      pos := 0;
    }

    // The locked scan of one read call.
    method Scan() returns (found: bool, data: Payload)
      requires Valid()
      modifies this
      ensures Valid()
      ensures var o := ScanOutcome(topic.log, old(pos), topic.capacity, readAccess);
              Returns(topic.log, o, found, data) && pos == o.pos
    {
      found, data, lastRead := topic.ReadScan(lastRead, readAccess, pos);
      pos := ScanOutcome(topic.log, pos, topic.capacity, readAccess).pos;
    }

    // One evaluation of the wait predicate of the same call.
    method Evaluate() returns (found: bool, data: Payload)
      requires Valid()
      modifies this
      ensures Valid()
      ensures var o := EvaluateOutcome(topic.log, old(pos), topic.capacity, readAccess);
              Returns(topic.log, o, found, data) && pos == o.pos
    {
      found, data, lastRead := topic.WaitPredicate(lastRead, readAccess, pos);
      pos := EvaluateOutcome(topic.log, pos, topic.capacity, readAccess).pos;
    }
  }
}
