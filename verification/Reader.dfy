/** The reading thread of a data reader: read a sample, wait for tokens, offer the sample until it is
    accepted, and stop after a number of samples or at a deadline. */
module Readers {
  import opened Words
  import opened TokenBuckets

  type Payload = seq<bv8>

  const RW_TIMEOUT: int := 100
  const MAX_SAMPLES_UNLIMITED: u16 := 0xFFFF
  const MAX_ELAPSED_TIME_UNLIMITED: u16 := 0
  const NANOS_PER_SECOND: int := 1_000_000_000

  /** What the surroundings answer to one interaction of the thread: how long after the previous one
      it happens, whether the call succeeds, the sample read (for a read), and whether the thread is
      still to run afterwards. */
  datatype Answer = Answer(delay: nat, ok: bool, data: Payload, running: bool)

  // The time the answers take when every one of them is followed by the longest wait.
  function Horizon(script: seq<Answer>): nat
    decreases |script|
  {
    if script == [] then 0 else script[0].delay + RW_TIMEOUT * NANOS_PER_MILLI + Horizon(script[1..])
  }

  function TotalBytes(samples: seq<Payload>): nat
    decreases |samples|
  {
    if samples == [] then 0 else TotalBytes(samples[..|samples| - 1]) + |samples[|samples| - 1]|
  }

  // final_time; without a limit it is the end of time.
  function Deadline(maxElapsed: u16, init: int): Option<int> {
    if maxElapsed == MAX_ELAPSED_TIME_UNLIMITED then None else Some(init + maxElapsed * NANOS_PER_SECOND)
  }

  // min(max_timeout, final_time - now)
  function Timeout(deadline: Option<int>, now: Time): int {
    if deadline.None? then RW_TIMEOUT else Min(RW_TIMEOUT, Millis(deadline.value - now))
  }

  lemma HorizonStep(script: seq<Answer>, i: nat)
    requires i < |script|
    ensures Horizon(script[i..]) == script[i].delay + RW_TIMEOUT * NANOS_PER_MILLI + Horizon(script[i + 1..])
  {
  }

  lemma NoBytes()
    ensures TotalBytes([]) == 0
  {
  }

  lemma BytesGrow(samples: seq<Payload>, more: Payload)
    ensures TotalBytes(samples + [more]) == TotalBytes(samples) + |more|
  {
  }

  // The timeout does not end before the last grant.
  predicate EndsAfterLastGrant(b: Bucket, timeout: int, now: int) {
    b.timestamp <= now + timeout * NANOS_PER_MILLI
  }

  // One call on the bucket with a timeout the thread can compute.
  lemma TimeoutCall(b: Bucket, required: nat, timeout: int, now: Time)
    requires Paced(b) && b.timestamp <= now && EndsAfterLastGrant(b, timeout, now) && timeout <= RW_TIMEOUT
    requires now + RW_TIMEOUT * NANOS_PER_MILLI < 0x8000_0000_0000_0000
    ensures ClockHolds(b, required, timeout, now)
    ensures var out := Consume(b, required, timeout, now);
            && Paced(out.bucket) && out.bucket.rate == b.rate
            && b.timestamp <= out.bucket.timestamp <= Later(b, out, now)
            && 0 <= out.until <= now + RW_TIMEOUT * NANOS_PER_MILLI
            && (!out.granted ==> out.bucket == b)
            && (if out.granted then required else 0) + out.bucket.tokens
               <= b.tokens + Allowance(b.rate, Millis(out.bucket.timestamp - b.timestamp))
  {
    hide Allowance, FinalTime;
    if required <= b.capacity && Available(b, now) < required {
      AvailableInRange(b, now);
      assert Allowance(b.rate, Millis(now - b.timestamp)) >= 0;
      WaitIsTheTimeout(b, required, timeout, now);
    }
    CallConserves(b, required, timeout, now);
  }

  /** A timeout computed while the last grant is not past the deadline does not end before that grant,
      then or later: a negative one reaches back to the deadline at most. */
  lemma TimeoutReachesDeadline(b: Bucket, deadline: Option<int>, computed: Time)
    requires b.timestamp <= computed && (deadline.Some? ==> b.timestamp <= deadline.value)
    ensures EndsAfterLastGrant(b, Timeout(deadline, computed), computed)
    ensures Timeout(deadline, computed) <= RW_TIMEOUT
  {
  }

  /** The timeout, exactly: without a deadline, or with one far off, 100 milliseconds; otherwise the whole
      milliseconds left, counted towards zero on either side of the deadline. */
  lemma TimeoutIsTimeLeft(deadline: int, now: Time)
    ensures Timeout(None, now) == 100
    ensures var left := Timeout(Some(deadline), now);
            && (now + 100_000_000 <= deadline ==> left == 100)
            && (now <= deadline < now + 100_000_000 ==>
                  0 <= left < 100 && left * 1_000_000 <= deadline - now < (left + 1) * 1_000_000)
            && (deadline < now ==> left <= 0 && left * 1_000_000 >= deadline - now > (left - 1) * 1_000_000)
  {
  }

  /** The deadline: max_elapsed_time seconds after the thread began to read, or none for zero. */
  lemma DeadlineIsSecondsAway(maxElapsed: u16, init: int)
    ensures Deadline(maxElapsed, init) == if maxElapsed == 0 then None else Some(init + maxElapsed * 1_000_000_000)
  {
  }

  // ---------------------------------------------------------------- the thread, answer by answer

  datatype Limits = Limits(rate: nat, maxSamples: u16, deadline: Option<int>, start: Time)

  // What the next answer answers: a read, a call on the bucket, or an offer to the session.
  datatype Phase = Reading | Asking | Offering | Stopped

  datatype Thread = Thread(
    phase: Phase,
    clock: int,
    bucket: Bucket,
    sample: Payload,
    timeout: int,
    count: u16,
    read: seq<Payload>,
    accepted: seq<Payload>)

  predicate Reached(l: Limits, t: Thread) {
    || (l.maxSamples != MAX_SAMPLES_UNLIMITED && t.count == l.maxSamples)
    || (l.deadline.Some? && t.clock > l.deadline.value)
  }

  // The end of a pass of the outer loop.
  function EndOfPass(l: Limits, t: Thread, running: bool): Thread {
    t.(phase := if running && !Reached(l, t) then Reading else Stopped)
  }

  function AfterRead(l: Limits, t: Thread, a: Answer, now: Time): Thread {
    var t' := t.(clock := now, timeout := Timeout(l.deadline, now));
    if a.ok then t'.(phase := Asking, sample := a.data, read := t.read + [a.data]) else EndOfPass(l, t', a.running)
  }

  function AfterCall(t: Thread, a: Answer, now: Time): Thread
    requires t.bucket.rate > 0 && ClockHolds(t.bucket, |t.sample|, t.timeout, now)
    requires 0 <= Consume(t.bucket, |t.sample|, t.timeout, now).until < 0x8000_0000_0000_0000
  {
    var out := Consume(t.bucket, |t.sample|, t.timeout, now);
    t.(clock := Later(t.bucket, out, now), bucket := out.bucket,
       phase := if out.granted then Offering else if a.running then Asking else Stopped)
  }

  // The session took the sample.
  function Taken(t: Thread, now: int): Thread {
    t.(clock := now, count := (t.count + 1) % 0x1_0000, accepted := t.accepted + [t.sample])
  }

  function AfterOffer(l: Limits, t: Thread, a: Answer, now: Time): Thread {
    if a.ok then EndOfPass(l, Taken(t, now), a.running)
    else t.(clock := now, phase := if a.running then Offering else Stopped)
  }

  predicate InClock(x: int) {
    0 <= x < 0x8000_0000_0000_0000
  }

  // One answer takes the thread from t to t'.
  predicate Turn(l: Limits, t: Thread, a: Answer, t': Thread) {
    var now := t.clock + a.delay;
    && InClock(now) && InClock(now + RW_TIMEOUT * NANOS_PER_MILLI)
    && match t.phase
       case Reading => t' == AfterRead(l, t, a, now)
       case Asking =>
         && t.bucket.rate > 0
         && ClockHolds(t.bucket, |t.sample|, t.timeout, now)
         && InClock(Consume(t.bucket, |t.sample|, t.timeout, now).until)
         && t' == AfterCall(t, a, now)
       case Offering => t' == AfterOffer(l, t, a, now)
       case Stopped => false
  }

  // A thread that was given the first answers of the script.
  predicate Trace(l: Limits, script: seq<Answer>, trace: seq<Thread>) {
    && 1 <= |trace| <= |script| + 1
    && forall k :: 0 <= k < |trace| - 1 ==> Turn(l, trace[k], script[k], trace[k + 1])
  }

  function Last(trace: seq<Thread>): Thread
    requires trace != []
  {
    trace[|trace| - 1]
  }

  // The thread at its first read; the bucket was made at start and is full.
  predicate Initial(l: Limits, t: Thread) {
    && t.phase == Reading && t.read == [] && t.accepted == [] && t.count == 0
    && t.bucket == Bucket(l.rate, l.rate, l.rate, l.start)
    && l.start <= t.clock && (l.deadline.Some? ==> t.clock <= l.deadline.value)
  }

  lemma TraceGrows(l: Limits, script: seq<Answer>, trace: seq<Thread>, t': Thread)
    requires Trace(l, script, trace) && |trace| <= |script|
    requires Turn(l, Last(trace), script[|trace| - 1], t')
    ensures Trace(l, script, trace + [t'])
  {
  }

  // ---------------------------------------------------------------- what every turn keeps

  // The samples whose bytes the bucket has granted.
  function Granted(t: Thread): seq<Payload> {
    if t.phase == Offering then t.accepted + [t.sample] else t.accepted
  }

  // Tokens granted so far and tokens left are covered by the first bucketful and the rate.
  ghost predicate Covered(b: Bucket, rate: nat, start: Time, clock: int, granted: nat) {
    && Paced(b) && b.rate == rate && start <= b.timestamp <= clock
    && granted + b.tokens <= rate + Allowance(rate, Millis(b.timestamp - start))
  }

  ghost predicate Counts(l: Limits, t: Thread) {
    && t.count == |t.accepted| % 0x1_0000
    && (1 <= l.maxSamples < MAX_SAMPLES_UNLIMITED ==>
          |t.accepted| <= l.maxSamples && (t.phase != Stopped ==> |t.accepted| < l.maxSamples))
  }

  ghost predicate Samples(t: Thread) {
    match t.phase
    case Reading => t.read == t.accepted
    case Asking => t.read == t.accepted + [t.sample]
    case Offering => t.read == t.accepted + [t.sample]
    case Stopped => t.read == t.accepted || t.read == t.accepted + [t.sample]
  }

  // No timeout in use ends before the last grant.
  ghost predicate Timed(l: Limits, t: Thread) {
    && (t.phase == Reading && l.deadline.Some? ==> t.clock <= l.deadline.value)
    && (t.phase == Asking ==> EndsAfterLastGrant(t.bucket, t.timeout, t.clock) && t.timeout <= RW_TIMEOUT)
  }

  ghost predicate Sound(l: Limits, t: Thread) {
    && Covered(t.bucket, l.rate, l.start, t.clock, TotalBytes(Granted(t)))
    && Counts(l, t) && Samples(t) && Timed(l, t)
  }

  lemma InitialIsSound(l: Limits, t: Thread)
    requires Initial(l, t) && 2 <= l.rate <= 0xFFFF
    ensures Sound(l, t)
  {
    assert Allowance(l.rate, Millis(0)) >= 0;
  }

  lemma ReadKeepsSound(l: Limits, t: Thread, a: Answer, t': Thread)
    requires Sound(l, t) && t.phase == Reading && Turn(l, t, a, t')
    ensures Sound(l, t')
  {
    hide Timeout, Allowance, TotalBytes;
    TimeoutReachesDeadline(t.bucket, l.deadline, t.clock + a.delay);
  }

  lemma CoveredStep(b: Bucket, b': Bucket, taken: nat, rate: nat, start: Time, clock': int, granted: nat)
    requires Covered(b, rate, start, b.timestamp, granted)
    requires Paced(b') && b'.rate == rate && b.timestamp <= b'.timestamp <= clock'
    requires taken + b'.tokens <= b.tokens + Allowance(rate, Millis(b'.timestamp - b.timestamp))
    ensures Covered(b', rate, start, clock', granted + taken)
  {
    hide Allowance;
    AllowancesAdd(rate, b.timestamp - start, b'.timestamp - b.timestamp);
  }

  lemma CallKeepsSound(l: Limits, t: Thread, a: Answer, t': Thread)
    requires Sound(l, t) && t.phase == Asking && Turn(l, t, a, t')
    ensures Sound(l, t')
  {
    hide Timeout, Allowance, TotalBytes, Consume, Millis, Covered;
    var now := t.clock + a.delay;
    CoveredFacts(t.bucket, l.rate, l.start, t.clock, TotalBytes(Granted(t)));
    TimeoutCall(t.bucket, |t.sample|, t.timeout, now);
    var out := Consume(t.bucket, |t.sample|, t.timeout, now);
    BytesGrow(t.accepted, t.sample);
    CoveredStep(t.bucket, out.bucket, if out.granted then |t.sample| else 0, l.rate, l.start,
                Later(t.bucket, out, now), TotalBytes(t.accepted));
  }

  lemma CoveredFacts(b: Bucket, rate: nat, start: Time, clock: int, granted: nat)
    requires Covered(b, rate, start, clock, granted)
    ensures Paced(b) && b.rate == rate && start <= b.timestamp <= clock
    ensures Covered(b, rate, start, b.timestamp, granted)
  {
  }

  lemma OfferKeepsSound(l: Limits, t: Thread, a: Answer, t': Thread)
    requires Sound(l, t) && t.phase == Offering && Turn(l, t, a, t')
    ensures Sound(l, t')
  {
    hide Timeout, Allowance, TotalBytes, Covered;
    BytesGrow(t.accepted, t.sample);
    CoveredLater(t.bucket, l.rate, l.start, t.clock, t'.clock, TotalBytes(t.accepted + [t.sample]));
    CoveredByLess(t.bucket, l.rate, l.start, t'.clock, TotalBytes(t.accepted), TotalBytes(t.accepted + [t.sample]));
  }

  lemma CoveredLater(b: Bucket, rate: nat, start: Time, clock: int, clock': int, granted: nat)
    requires Covered(b, rate, start, clock, granted) && clock <= clock'
    ensures Covered(b, rate, start, clock', granted)
  {
  }

  lemma CoveredByLess(b: Bucket, rate: nat, start: Time, clock: int, less: nat, granted: nat)
    requires Covered(b, rate, start, clock, granted) && less <= granted
    ensures Covered(b, rate, start, clock, less)
  {
  }

  lemma TurnKeepsSound(l: Limits, t: Thread, a: Answer, t': Thread)
    requires Sound(l, t) && Turn(l, t, a, t')
    ensures Sound(l, t')
  {
    hide Sound;
    match t.phase
    case Reading => ReadKeepsSound(l, t, a, t');
    case Asking => CallKeepsSound(l, t, a, t');
    case Offering => OfferKeepsSound(l, t, a, t');
    case Stopped =>
  }

  lemma {:induction false} TraceIsSound(l: Limits, script: seq<Answer>, trace: seq<Thread>, n: nat)
    requires Trace(l, script, trace) && Initial(l, trace[0]) && 2 <= l.rate <= 0xFFFF && n < |trace|
    ensures Sound(l, trace[n])
    decreases n
  {
    hide Sound, Turn, Initial;
    if n == 0 {
      InitialIsSound(l, trace[0]);
    } else {
      TraceIsSound(l, script, trace, n - 1);
      TurnKeepsSound(l, trace[n - 1], script[n - 1], trace[n]);
    }
  }

  // ---------------------------------------------------------------- what the thread is for

  /** The rate bound under every deadline: the loop does compute negative timeouts, but none that ends before
      the last grant. */
  lemma AcceptedKeepsRate(l: Limits, script: seq<Answer>, trace: seq<Thread>)
    requires Trace(l, script, trace) && Initial(l, trace[0]) && 2 <= l.rate <= 0xFFFF
    ensures l.start <= Last(trace).clock
    ensures TotalBytes(Last(trace).accepted) <= l.rate + Allowance(l.rate, Millis(Last(trace).clock - l.start))
  {
    var t := Last(trace);
    TraceIsSound(l, script, trace, |trace| - 1);
    BytesGrow(t.accepted, t.sample);
    AllowanceGrows(l.rate, Millis(t.bucket.timestamp - l.start), Millis(t.clock - l.start));
  }

  // The samples of the successful reads among the first n answers.
  function SamplesRead(script: seq<Answer>, trace: seq<Thread>, n: nat): seq<Payload>
    requires n < |trace| <= |script| + 1
  {
    if n == 0 then []
    else
      SamplesRead(script, trace, n - 1)
      + if trace[n - 1].phase == Reading && script[n - 1].ok then [script[n - 1].data] else []
  }

  // The offers among the first n answers that the session took.
  function OffersTaken(script: seq<Answer>, trace: seq<Thread>, n: nat): nat
    requires n < |trace| <= |script| + 1
  {
    if n == 0 then 0
    else OffersTaken(script, trace, n - 1) + if trace[n - 1].phase == Offering && script[n - 1].ok then 1 else 0
  }

  /** Every sample that was read, and nothing else, is offered until the session takes it, in order: the samples
      read are those of the successful reads, the accepted ones are the first of them, one for each offer
      that was taken, and at most one is waiting; the thread reads exactly when none is. */
  lemma {:induction false} SamplesAreHandedOn(l: Limits, script: seq<Answer>, trace: seq<Thread>, n: nat)
    requires Trace(l, script, trace) && Initial(l, trace[0]) && 2 <= l.rate <= 0xFFFF && n < |trace|
    ensures var t := trace[n];
            && t.read == SamplesRead(script, trace, n)
            && |t.accepted| == OffersTaken(script, trace, n)
            && t.accepted <= t.read && |t.read| <= |t.accepted| + 1
            && (t.phase != Stopped ==> (t.phase == Reading <==> t.read == t.accepted))
    decreases n
  {
    hide Sound, Timeout, Consume, ClockHolds;
    TraceIsSound(l, script, trace, n);
    SamplesOf(l, trace[n]);
    if n > 0 {
      SamplesAreHandedOn(l, script, trace, n - 1);
      assert Turn(l, trace[n - 1], script[n - 1], trace[n]);
      assert trace[n - 1].read + [] == trace[n - 1].read;
    }
  }

  lemma SamplesOf(l: Limits, t: Thread)
    requires Sound(l, t)
    ensures Samples(t) && Counts(l, t)
    ensures t.accepted <= t.read && |t.read| <= |t.accepted| + 1
    ensures t.phase != Stopped ==> (t.phase == Reading <==> t.read == t.accepted)
  {
    assert t.accepted <= t.accepted + [t.sample];
    assert |t.accepted + [t.sample]| == |t.accepted| + 1;
  }

  /** When the thread stops, exactly. While it is to run: with no sample waiting, when the number of accepted
      samples has reached the limit, modulo the sixteen bits it is counted in, or the deadline is past. When
      it is not to run any more: at once, but for a sample just read, which is still asked for, and one just
      granted, which is still offered. */
  lemma ThreadStopsIff(l: Limits, script: seq<Answer>, trace: seq<Thread>, i: nat)
    requires Trace(l, script, trace) && Initial(l, trace[0]) && 2 <= l.rate <= 0xFFFF && i + 1 < |trace|
    ensures var t, a, t' := trace[i], script[i], trace[i + 1];
            t'.phase == Stopped
            <==> if a.running then
                   && t'.read == t'.accepted
                   && (|| (l.maxSamples != 65535 && |t'.accepted| % 65536 == l.maxSamples)
                       || (l.deadline.Some? && t'.clock > l.deadline.value))
                 else
                   !(t.phase == Reading && a.ok) && !(t.phase == Asking && t'.phase == Offering)
  {
    hide Sound, Timeout, Consume, ClockHolds;
    TraceIsSound(l, script, trace, i);
    TraceIsSound(l, script, trace, i + 1);
    SamplesOf(l, trace[i]);
    SamplesOf(l, trace[i + 1]);
    assert Turn(l, trace[i], script[i], trace[i + 1]);
  }

  /** A sample is offered exactly when the bucket, at the time its call is decided, holds its bytes; these are
      what the bucket then loses, and the thread has slept until then. */
  lemma OfferedIffStocked(l: Limits, script: seq<Answer>, trace: seq<Thread>, i: nat)
    requires Trace(l, script, trace) && Initial(l, trace[0]) && 2 <= l.rate <= 0xFFFF && i + 1 < |trace|
    requires trace[i].phase == Asking && trace[i].timeout >= 0
    ensures var t, t', now := trace[i], trace[i + 1], trace[i].clock + script[i].delay;
            && t.bucket.timestamp <= now
            && var at := DecidedAt(t.bucket, |t.sample|, t.timeout, now);
               && (t'.phase == Offering <==> |t.sample| <= Stock(t.bucket, at))
               && t'.clock == at
               && (t'.phase == Offering ==>
                     && t'.bucket.tokens == Stock(t.bucket, at) - |t.sample| && t'.bucket.timestamp == at
                     && t'.bucket.rate == t'.bucket.capacity == l.rate)
               && (t'.phase != Offering ==> t'.bucket == t.bucket)
  {
    hide Consume, ClockHolds, Allowance, Timeout;
    TraceIsSound(l, script, trace, i);
    var t, now := trace[i], trace[i].clock + script[i].delay;
    assert Turn(l, t, script[i], trace[i + 1]);
    CallIsExact(t.bucket, |t.sample|, t.timeout, now);
  }

  /** A sample just read is asked for with the time left when its read began to be answered, until its bytes are
      granted; reads and offers take their time and nothing from the bucket. */
  lemma SampleIsAskedFor(l: Limits, script: seq<Answer>, trace: seq<Thread>, i: nat)
    requires Trace(l, script, trace) && i + 1 < |trace|
    ensures var t, a, t' := trace[i], script[i], trace[i + 1];
            && (t.phase == Reading && a.ok ==>
                  && t'.phase == Asking && t'.sample == a.data && InClock(t.clock + a.delay)
                  && t'.timeout == Timeout(l.deadline, t.clock + a.delay))
            && (t.phase == Asking ==>
                  t'.sample == t.sample && t'.timeout == t.timeout && t'.phase in {Asking, Offering, Stopped})
            && (t.phase == Offering ==>
                  t'.sample == t.sample && (t'.accepted == if a.ok then t.accepted + [t.sample] else t.accepted))
            && (t.phase != Asking ==> t'.clock == t.clock + a.delay && t'.bucket == t.bucket)
  {
    hide Consume, ClockHolds, Timeout;
    assert Turn(l, trace[i], script[i], trace[i + 1]);
  }

  // ---------------------------------------------------------------- the loops

  // The innermost loop: offer the sample until the session takes it or the thread is stopped.
  method Offer(script: seq<Answer>, from: nat, at: Time, ghost l: Limits, ghost trace: seq<Thread>)
    returns (pushed: bool, running: bool, i: nat, clock: Time, ghost trace': seq<Thread>)
    requires |trace| == from + 1 && Trace(l, script, trace) && from <= |script|
    requires Last(trace).phase == Offering && Last(trace).clock == at
    requires at + Horizon(script[from..]) < 0x8000_0000_0000_0000
    ensures from <= i <= |script| && at <= clock && clock + Horizon(script[i..]) < 0x8000_0000_0000_0000
    ensures pushed || !running || i == |script|
    ensures pushed ==> from < i && script[i - 1].ok
    ensures forall k :: from <= k < i && script[k].ok ==> pushed && k == i - 1
    ensures |trace'| == i + 1 && Trace(l, script, trace')
    ensures trace <= trace' && Last(trace') == Offered(l, Last(trace), clock, pushed, running)
  {
    hide Turn, Trace, AfterOffer, Offered, Horizon;
    NotOfferedYet(l, Last(trace));
    pushed, running, i, clock := false, true, from, at;
    trace' := trace;
    var offer := true;
    while offer && i < |script|
      invariant from <= i <= |script| && at <= clock && clock + Horizon(script[i..]) < 0x8000_0000_0000_0000
      invariant offer ==> !pushed && running
      invariant !offer ==> pushed || !running
      invariant pushed ==> from < i && script[i - 1].ok
      invariant forall k :: from <= k < i && script[k].ok ==> pushed && k == i - 1
      invariant |trace'| == i + 1 && Trace(l, script, trace')
      invariant trace <= trace' && Last(trace') == Offered(l, Last(trace), clock, pushed, running)
    {
      HorizonStep(script, i);
      OfferedOnce(l, Last(trace), clock, script[i], clock + script[i].delay);
      ghost var next := AfterOffer(l, Last(trace'), script[i], clock + script[i].delay);
      TraceGrows(l, script, trace', next);
      trace' := trace' + [next];
      i, clock, running, pushed := i + 1, clock + script[i].delay, script[i].running, script[i].ok;
      offer := running && !pushed;
    }
  }

  // The thread after its offers.
  ghost function Offered(l: Limits, t: Thread, clock: int, pushed: bool, running: bool): Thread {
    if pushed then EndOfPass(l, Taken(t, clock), running)
    else t.(clock := clock, phase := if running then Offering else Stopped)
  }

  lemma NotOfferedYet(l: Limits, t: Thread)
    requires t.phase == Offering
    ensures Offered(l, t, t.clock, false, true) == t
  {
  }

  lemma OfferedOnce(l: Limits, t: Thread, clock: int, a: Answer, now: int)
    requires now == clock + a.delay && InClock(now) && InClock(now + RW_TIMEOUT * NANOS_PER_MILLI)
    ensures var mid := Offered(l, t, clock, false, true);
            && AfterOffer(l, mid, a, now) == Offered(l, t, now, a.ok, a.running)
            && Turn(l, mid, a, AfterOffer(l, mid, a, now))
  {
  }

  // The loop around it: ask the bucket for the sample's bytes, with the timeout of the read, until
  // it grants them and the sample is offered.
  method Deliver(bucket: TokenBucket, data: Payload, timeout: int, script: seq<Answer>, from: nat, at: Time,
                 ghost l: Limits, ghost trace: seq<Thread>)
    returns (pushed: bool, running: bool, i: nat, clock: Time, ghost trace': seq<Thread>)
    requires |trace| == from + 1 && Trace(l, script, trace) && from <= |script| && Sound(l, Last(trace))
    requires var t := Last(trace);
             && t.phase == Asking && t.clock == at && t.bucket == bucket.Abs()
             && t.sample == data && t.timeout == timeout
    requires at + Horizon(script[from..]) < 0x8000_0000_0000_0000
    modifies bucket
    ensures from <= i <= |script| && at <= clock && clock + Horizon(script[i..]) < 0x8000_0000_0000_0000
    ensures pushed || !running || i == |script|
    ensures |trace'| == i + 1 && Trace(l, script, trace') && trace <= trace'
    ensures Last(trace').bucket == bucket.Abs()
    ensures Delivered(l, Last(trace), Last(trace'), clock, pushed, running)
  {
    hide Consume, Sound, Offered, Turn, Trace, AfterCall, Horizon, Delivered, ClockHolds, EndOfPass;
    NotAskedYet(l, Last(trace));
    pushed, running, i, clock := false, true, from, at;
    trace' := trace;
    var again := true;
    while again && i < |script|
      invariant from <= i <= |script| && at <= clock && clock + Horizon(script[i..]) < 0x8000_0000_0000_0000
      invariant |trace'| == i + 1 && Trace(l, script, trace') && trace <= trace'
      invariant Last(trace').bucket == bucket.Abs()
      invariant Delivered(l, Last(trace), Last(trace'), clock, pushed, running)
      invariant again && i < |script| ==>
                  !pushed && running && Sound(l, Last(trace'))
                  && Last(trace') == Last(trace).(clock := clock, bucket := bucket.Abs())
      invariant !again ==> pushed || !running
      decreases |script| - i
    {
      HorizonStep(script, i);
      ghost var t := Last(trace');
      CanAsk(l, t, clock + script[i].delay);
      ghost var next := AfterCall(t, script[i], clock + script[i].delay);
      AskedOnce(l, Last(trace), t, script[i], clock + script[i].delay);
      TraceGrows(l, script, trace', next);
      TurnKeepsSound(l, t, script[i], next);
      trace' := trace' + [next];
      i, clock, running := i + 1, clock + script[i].delay, script[i].running;
      var ok, until := bucket.ConsumeTokens(|data|, timeout, clock);
      clock := if until >= clock then until else clock;
      if ok {
        pushed, running, i, clock, trace' := Offer(script, i, clock, l, trace');
        OfferedIsDelivered(l, Last(trace), next, clock, pushed, running);
      }
      again := running && !pushed;
    }
  }

  lemma CanAsk(l: Limits, t: Thread, now: Time)
    requires Sound(l, t) && t.phase == Asking && t.clock <= now
    requires now + RW_TIMEOUT * NANOS_PER_MILLI < 0x8000_0000_0000_0000
    ensures t.bucket.rate > 0 && ClockHolds(t.bucket, |t.sample|, t.timeout, now)
    ensures 0 <= Consume(t.bucket, |t.sample|, t.timeout, now).until <= now + RW_TIMEOUT * NANOS_PER_MILLI
  {
    hide Allowance, Consume;
    TimeoutCall(t.bucket, |t.sample|, t.timeout, now);
  }

  // The thread t' after asking and offering from t on; only its bucket is left open.
  ghost predicate Delivered(l: Limits, t: Thread, t': Thread, clock: int, pushed: bool, running: bool) {
    if pushed then
      t' == EndOfPass(l, Taken(t, clock).(bucket := t'.bucket), running)
    else
      && t' == t.(clock := clock, bucket := t'.bucket, phase := t'.phase)
      && (if running then t'.phase in {Asking, Offering} else t'.phase == Stopped)
  }

  lemma NotAskedYet(l: Limits, t: Thread)
    requires t.phase == Asking
    ensures Delivered(l, t, t, t.clock, false, true)
  {
  }

  lemma AskedOnce(l: Limits, t0: Thread, t: Thread, a: Answer, now: Time)
    requires t0.phase == Asking && t == t0.(clock := t.clock, bucket := t.bucket)
    requires now == t.clock + a.delay && InClock(now + RW_TIMEOUT * NANOS_PER_MILLI)
    requires t.bucket.rate > 0 && ClockHolds(t.bucket, |t.sample|, t.timeout, now)
    requires 0 <= Consume(t.bucket, |t.sample|, t.timeout, now).until <= now + RW_TIMEOUT * NANOS_PER_MILLI
    ensures var next, out := AfterCall(t, a, now), Consume(t.bucket, |t.sample|, t.timeout, now);
            && Turn(l, t, a, next)
            && next.clock == (if out.until >= now then out.until else now) && next.bucket == out.bucket
            && (out.granted ==> next == t0.(clock := next.clock, bucket := next.bucket, phase := Offering))
            && (!out.granted ==> Delivered(l, t0, next, next.clock, false, a.running))
            && (!out.granted && a.running ==> next == t0.(clock := next.clock, bucket := next.bucket))
  {
    hide Consume, ClockHolds;
  }

  lemma OfferedIsDelivered(l: Limits, t0: Thread, t: Thread, clock: int, pushed: bool, running: bool)
    requires t == t0.(clock := t.clock, bucket := t.bucket, phase := Offering)
    ensures Delivered(l, t0, Offered(l, t, clock, pushed, running), clock, pushed, running)
    ensures Offered(l, t, clock, pushed, running).bucket == t.bucket
  {
  }

  /** read_task, for any answers of the surroundings, up to where they end; the result holds for every finite
      beginning of every run of the thread. The bucket is made at start and the deadline counts from init.
      used answers are consumed, and trace tells what the thread did with each. */
  method ReadTask(rate: nat, maxSamples: u16, maxElapsed: u16, start: Time, init: Time, script: seq<Answer>)
    returns (read: seq<Payload>, accepted: seq<Payload>, end: Time, used: nat, ghost trace: seq<Thread>)
    requires 2 <= rate <= 0xFFFF
    requires start <= init && init + Horizon(script) < 0x8000_0000_0000_0000
    ensures var l := Limits(rate, maxSamples, Deadline(maxElapsed, init), start);
            && Trace(l, script, trace) && |trace| == used + 1 && Initial(l, trace[0]) && trace[0].clock == init
            && read == Last(trace).read && accepted == Last(trace).accepted && end == Last(trace).clock
            && (used < |script| ==> Last(trace).phase == Stopped)
    ensures end >= init
    ensures TotalBytes(accepted) <= rate + Allowance(rate, Millis(end - start))
    ensures read == SamplesRead(script, trace, used)
    ensures accepted <= read && |read| <= |accepted| + 1
    ensures 1 <= maxSamples < MAX_SAMPLES_UNLIMITED ==> |accepted| <= maxSamples
    ensures used < |script| ==>
              || (used > 0 && !script[used - 1].running)
              || (maxSamples != 65535 && |accepted| % 65536 == maxSamples)
              || (maxElapsed != 0 && end > init + maxElapsed * 1_000_000_000)
  {
    hide Allowance, Timeout, Millis, Horizon, TotalBytes, Sound, Trace, Turn, AfterRead, EndOfPass, Delivered, AtPass;
    hide Initial, SamplesRead;
    ghost var l := Limits(rate, maxSamples, Deadline(maxElapsed, init), start);
    var bucket := new TokenBucket(rate, 0, start);
    var deadline := Deadline(maxElapsed, init);
    var clock, running, stop, count: u16 := init, true, false, 0;
    read, accepted, used := [], [], 0;
    trace := [Thread(Reading, init, bucket.Abs(), [], 0, 0, [], [])];
    Starts(l, script, trace[0], init);
    while running && !stop && used < |script|
      invariant used <= |script| && init <= clock && clock + Horizon(script[used..]) < 0x8000_0000_0000_0000
      invariant fresh(bucket) && |trace| == used + 1 && Trace(l, script, trace)
      invariant Initial(l, trace[0]) && trace[0].clock == init
      invariant At(Last(trace), clock, bucket.Abs(), count, read, accepted)
      invariant used < |script| ==> AtPass(Last(trace), running, stop)
      decreases |script| - used
    {
      HorizonStep(script, used);
      TraceIsSound(l, script, trace, used);
      ghost var t := Last(trace);
      var sample, timeout := script[used], Timeout(deadline, clock + script[used].delay);
      ghost var next := AfterRead(l, t, sample, clock + sample.delay);
      ReadOnce(l, t, sample, clock + sample.delay);
      TraceGrows(l, script, trace, next);
      TurnKeepsSound(l, t, sample, next);
      trace := trace + [next];
      used, clock, running := used + 1, clock + sample.delay, sample.running;
      if sample.ok {
        read := read + [sample.data];
        var pushed;
        pushed, running, used, clock, trace := Deliver(bucket, sample.data, timeout, script, used, clock, l, trace);
        DeliveredPass(l, next, Last(trace), clock, pushed, running);
        if pushed {
          accepted := accepted + [sample.data];
          count := (count + 1) % 0x1_0000;
        }
      }
      stop := (maxSamples != MAX_SAMPLES_UNLIMITED && count == maxSamples)
              || (deadline.Some? && clock > deadline.value);
    }
    end := clock;
    if used < |script| {
      PassIsOver(Last(trace), running, stop);
    }
    Concludes(l, script, trace, used);
  }

  predicate At(t: Thread, clock: int, bucket: Bucket, count: u16, read: seq<Payload>, accepted: seq<Payload>) {
    t.clock == clock && t.bucket == bucket && t.count == count && t.read == read && t.accepted == accepted
  }

  // Between two passes of the outer loop.
  predicate AtPass(t: Thread, running: bool, stop: bool) {
    t.phase == if running && !stop then Reading else Stopped
  }

  lemma Starts(l: Limits, script: seq<Answer>, t: Thread, init: Time)
    requires t == Thread(Reading, init, Bucket(l.rate, l.rate, l.rate, l.start), [], 0, 0, [], [])
    requires l.start <= init && (l.deadline.Some? ==> init <= l.deadline.value)
    ensures Trace(l, script, [t]) && Initial(l, t) && AtPass(t, true, false)
  {
  }

  lemma ReadOnce(l: Limits, t: Thread, a: Answer, now: int)
    requires AtPass(t, true, false)
    requires now == t.clock + a.delay && InClock(now) && InClock(now + RW_TIMEOUT * NANOS_PER_MILLI)
    ensures var next := AfterRead(l, t, a, now);
            && t.phase == Reading && Turn(l, t, a, next)
            && (a.ok ==>
                  && next.phase == Asking && next.sample == a.data && next.timeout == Timeout(l.deadline, now)
                  && At(next, now, t.bucket, t.count, t.read + [a.data], t.accepted))
            && (!a.ok ==>
                  && At(next, now, t.bucket, t.count, t.read, t.accepted)
                  && AtPass(next, a.running, Reached(l, next)))
  {
    hide Timeout;
  }

  lemma DeliveredPass(l: Limits, t: Thread, t': Thread, clock: int, pushed: bool, running: bool)
    requires Delivered(l, t, t', clock, pushed, running)
    ensures pushed ==>
              && At(t', clock, t'.bucket, (t.count + 1) % 0x1_0000, t.read, t.accepted + [t.sample])
              && AtPass(t', running, Reached(l, t'))
    ensures !pushed ==>
              && At(t', clock, t'.bucket, t.count, t.read, t.accepted)
              && (!running ==> AtPass(t', running, Reached(l, t')))
  {
  }

  lemma PassIsOver(t: Thread, running: bool, stop: bool)
    requires AtPass(t, running, stop) && !(running && !stop)
    ensures t.phase == Stopped
  {
  }

  lemma Concludes(l: Limits, script: seq<Answer>, trace: seq<Thread>, used: nat)
    requires Trace(l, script, trace) && |trace| == used + 1 && Initial(l, trace[0]) && 2 <= l.rate <= 0xFFFF
    ensures var t := Last(trace);
            && l.start <= t.clock
            && TotalBytes(t.accepted) <= l.rate + Allowance(l.rate, Millis(t.clock - l.start))
            && t.read == SamplesRead(script, trace, used)
            && t.accepted <= t.read && |t.read| <= |t.accepted| + 1
            && (1 <= l.maxSamples < MAX_SAMPLES_UNLIMITED ==> |t.accepted| <= l.maxSamples)
            && (used < |script| && t.phase == Stopped ==>
                  || (used > 0 && !script[used - 1].running)
                  || (l.maxSamples != 65535 && |t.accepted| % 65536 == l.maxSamples)
                  || (l.deadline.Some? && t.clock > l.deadline.value))
  {
    hide Allowance, Millis, TotalBytes, Sound, Turn;
    AcceptedKeepsRate(l, script, trace);
    SamplesAreHandedOn(l, script, trace, used);
    TraceIsSound(l, script, trace, used);
    SamplesOf(l, Last(trace));
    if used > 0 {
      ThreadStopsIff(l, script, trace, used - 1);
    }
  }
}
