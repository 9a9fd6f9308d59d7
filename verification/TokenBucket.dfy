/** The token bucket that paces a reader, with the unsigned 64-bit arithmetic it is computed in. */
module TokenBuckets {

  const U64: int := 0x1_0000_0000_0000_0000
  const NANOS_PER_MILLI: int := 1_000_000
  const MILLIS_PER_SECOND: int := 1000

  // A reading of the steady clock, in nanoseconds.
  type Time = x: int | 0 <= x < 0x8000_0000_0000_0000

  function Min(a: int, b: int): int {
    if a <= b then a else b
  }

  // duration_cast<milliseconds> truncates toward zero.
  function Millis(nanos: int): int {
    if nanos >= 0 then nanos / NANOS_PER_MILLI else -((-nanos) / NANOS_PER_MILLI)
  }

  // size_t((rate * uint64_t(elapsed)) / 1000)
  function Refill(rate: nat, elapsed: int): nat {
    (rate * (elapsed % U64)) % U64 / MILLIS_PER_SECOND
  }

  // What a rate of bytes per second allows in a span of milliseconds, in exact arithmetic.
  function Allowance(rate: nat, elapsed: nat): nat {
    rate * elapsed / 1000
  }

  datatype Bucket = Bucket(rate: nat, capacity: nat, tokens: nat, timestamp: Time)

  // A bucket of a limited reader: a byte rate of 2 to 65535, which is also its capacity.
  predicate Paced(b: Bucket) {
    2 <= b.rate <= 0xFFFF && b.capacity == b.rate && b.tokens <= b.capacity
  }

  function Available(b: Bucket, at: int): nat {
    Min(b.capacity, (b.tokens + Refill(b.rate, Millis(at - b.timestamp))) % U64)
  }

  // milliseconds(uint64_t((1000 * (tokens - required)) / rate)), where tokens < required.
  function ShortfallWait(b: Bucket, required: nat): int
    requires b.rate > 0
  {
    (MILLIS_PER_SECOND * ((b.tokens - required) % U64)) % U64 / b.rate
  }

  function FinalTime(b: Bucket, required: nat, timeout: int, now: Time): int
    requires b.rate > 0
  {
    now + Min(ShortfallWait(b, required), timeout) * NANOS_PER_MILLI
  }

  // The outcome of a call: whether it granted, the bucket after it, and the time it sleeps until.
  datatype Outcome = Outcome(granted: bool, bucket: Bucket, until: int)

  // The time a call sleeps until, when it sleeps, is a time the clock can hold.
  predicate ClockHolds(b: Bucket, required: nat, timeout: int, now: Time)
    requires b.rate > 0
  {
    required <= b.capacity && Available(b, now) < required
    ==> 0 <= FinalTime(b, required, timeout, now) < 0x8000_0000_0000_0000
  }

  function Consume(b: Bucket, required: nat, timeout: int, now: Time): Outcome
    requires b.rate > 0 && ClockHolds(b, required, timeout, now)
  {
    if required > b.capacity then Outcome(false, b, now)
    else if Available(b, now) < required then
      var final := FinalTime(b, required, timeout, now);
      var expected := Available(b, final);
      if expected >= required
      then Outcome(true, b.(tokens := expected - required, timestamp := final), final)
      else Outcome(false, b, final)
    else Outcome(true, b.(tokens := Available(b, now) - required, timestamp := now), now)
  }

  /** The wait is never the time the missing tokens take: tokens - required wraps, so the quotient
      is beyond every timeout of practical length and the call always sleeps the whole timeout. */
  lemma WaitIsTheTimeout(b: Bucket, required: nat, timeout: int, now: Time)
    requires Paced(b) && b.tokens < required <= b.capacity
    requires timeout <= 0x1_0000_0000_0000
    ensures FinalTime(b, required, timeout, now) == now + timeout * NANOS_PER_MILLI
  {
    var x := required - b.tokens;
    assert 1 <= x <= 0xFFFF;
    assert (b.tokens - required) % U64 == U64 - x;
    assert MILLIS_PER_SECOND * (U64 - x) == (U64 - MILLIS_PER_SECOND * x) + U64 * (MILLIS_PER_SECOND - 1);
    assert (MILLIS_PER_SECOND * (U64 - x)) % U64 == U64 - MILLIS_PER_SECOND * x;
    DivideByAtMost(U64 - MILLIS_PER_SECOND * x, b.rate, 0xFFFF);
    assert (U64 - MILLIS_PER_SECOND * x) / 0xFFFF >= 0x1_0000_0000_0000;
  }

  lemma QuotientAtLeast(x: nat, d: nat, q: nat)
    requires 1 <= d && q * d <= x
    ensures x / d >= q
  {
    var e := q - x / d - 1;
    assert x < d * (x / d + 1) == d * (q - e);
    assert d * (q - e) == d * q - d * e;
    assert e >= 0 ==> d * e >= 0;
  }

  lemma DivideByAtMost(x: nat, d: nat, e: nat)
    requires 1 <= d <= e
    ensures x / d >= x / e
  {
    var q := x / e;
    assert q * d <= q * e <= x;
    QuotientAtLeast(x, d, q);
  }

  // Within the clock's range the refill does not wrap.
  lemma RefillIsAllowance(b: Bucket, elapsed: int)
    requires Paced(b) && 0 <= elapsed < 0x1_0000_0000_0000
    ensures Refill(b.rate, elapsed) == Allowance(b.rate, elapsed)
    ensures b.tokens + Refill(b.rate, elapsed) < U64
  {
    ProductBound(b.rate, elapsed);
    assert elapsed % U64 == elapsed;
    assert (b.rate * elapsed) % U64 == b.rate * elapsed;
  }

  lemma ProductBound(rate: nat, x: nat)
    requires rate <= 0xFFFF
    ensures 0 <= rate * x <= 0xFFFF * x
    ensures 1 <= rate && 1 <= x ==> 1 <= rate * x
  {
  }

  lemma AvailableInRange(b: Bucket, at: int)
    requires Paced(b) && b.timestamp <= at < 0x8000_0000_0000_0000
    ensures Available(b, at) == Min(b.capacity, b.tokens + Allowance(b.rate, Millis(at - b.timestamp)))
  {
    hide Refill, Allowance;
    RefillIsAllowance(b, Millis(at - b.timestamp));
  }

  lemma NoTimeNoRefill(rate: nat)
    ensures Refill(rate, 0) == 0
  {
  }

  // Less than a millisecond early is on time; earlier fills the bucket.
  lemma AvailableEarly(b: Bucket, at: int)
    requires Paced(b) && 0 <= at < b.timestamp
    ensures Millis(at - b.timestamp) == 0 ==> Available(b, at) == b.tokens
    ensures Millis(at - b.timestamp) < 0 ==> Available(b, at) == b.capacity
  {
    hide Refill;
    var elapsed := Millis(at - b.timestamp);
    assert -0x1_0000_0000_0000 < elapsed <= 0;
    if elapsed < 0 {
      NegativeRefillFillsBucket(b, elapsed);
    } else {
      NoTimeNoRefill(b.rate);
    }
  }

  // A negative elapsed time wraps to an enormous refill.
  lemma NegativeRefillFillsBucket(b: Bucket, elapsed: int)
    requires Paced(b) && -0x1_0000_0000_0000 < elapsed < 0
    ensures b.tokens + Refill(b.rate, elapsed) < U64
    ensures b.tokens + Refill(b.rate, elapsed) >= b.capacity
  {
    var m := -elapsed;
    assert elapsed % U64 == U64 - m;
    ProductBound(b.rate, m);
    assert b.rate * (U64 - m) == (U64 - b.rate * m) + U64 * (b.rate - 1);
    WrapsOnce(U64 - b.rate * m, b.rate - 1);
  }

  lemma WrapsOnce(x: nat, q: nat)
    requires x < U64
    ensures (x + U64 * q) % U64 == x
  {
  }

  // The call lacks tokens, and its timeout ends a millisecond or more before the last grant; a timeout of zero
  // or more never does.
  predicate Overdraws(b: Bucket, required: nat, timeout: int, now: Time) {
    && required <= b.capacity && Available(b, now) < required
    && Millis(now + timeout * NANOS_PER_MILLI - b.timestamp) < 0
  }

  /** Conservation for one call, exactly: what a call grants and leaves behind is covered by what was
      there plus what the rate allows up to the later of the call and the time it sleeps until, unless
      the call overdraws. */
  lemma ConservationIsExact(b: Bucket, required: nat, timeout: int, now: Time)
    requires Paced(b) && b.timestamp <= now && timeout <= 0x1_0000_0000
    requires ClockHolds(b, required, timeout, now)
    ensures var out := Consume(b, required, timeout, now);
            var end := if out.until >= now then out.until else now;
            (out.granted ==>
               required + out.bucket.tokens <= b.tokens + Allowance(b.rate, Millis(end - b.timestamp)))
            <==> !Overdraws(b, required, timeout, now)
  {
    hide FinalTime, Available, Allowance;
    AvailableInRange(b, now);
    if required <= b.capacity && Available(b, now) < required {
      AllowanceIsNat(b.rate, Millis(now - b.timestamp));
      WaitIsTheTimeout(b, required, timeout, now);
      var final := FinalTime(b, required, timeout, now);
      if final < b.timestamp {
        AvailableEarly(b, final);
      } else {
        AvailableInRange(b, final);
        var end := if final >= now then final else now;
        AllowanceGrows(b.rate, Millis(final - b.timestamp), Millis(end - b.timestamp));
      }
    }
  }

  // What a bucket holds at a time not before its last grant.
  function Stock(b: Bucket, at: int): nat
    requires b.timestamp <= at
  {
    Min(b.capacity, b.tokens + Allowance(b.rate, Millis(at - b.timestamp)))
  }

  // The time at which a call with a timeout of zero or more is decided.
  function DecidedAt(b: Bucket, required: nat, timeout: nat, now: Time): int
    requires b.timestamp <= now
  {
    if Stock(b, now) < required <= b.capacity then now + timeout * NANOS_PER_MILLI else now
  }

  /** A call with a timeout of zero or more, exactly, in exact arithmetic: it is decided at once when the bucket
      holds what it asks for or can never hold it, and at the end of the timeout otherwise; it is granted iff
      the bucket then holds what it asks for; a grant takes just that, a refusal takes nothing. */
  lemma CallIsExact(b: Bucket, required: nat, timeout: nat, now: Time)
    requires Paced(b) && b.timestamp <= now && timeout <= 0x1_0000_0000
    requires ClockHolds(b, required, timeout, now)
    ensures var at := DecidedAt(b, required, timeout, now);
            var out := Consume(b, required, timeout, now);
            && out.until == at
            && (out.granted <==> required <= Stock(b, at))
            && (out.granted ==> out.bucket == Bucket(b.rate, b.capacity, Stock(b, at) - required, at))
            && (!out.granted ==> out.bucket == b)
  {
    hide FinalTime, Available, Stock, Millis, ShortfallWait;
    AvailableIsStock(b, now);
    StockIsBetween(b, now);
    if Stock(b, now) < required <= b.capacity {
      WaitIsTheTimeout(b, required, timeout, now);
      AvailableIsStock(b, FinalTime(b, required, timeout, now));
    }
  }

  lemma AvailableIsStock(b: Bucket, at: int)
    requires Paced(b) && b.timestamp <= at < 0x8000_0000_0000_0000
    ensures Available(b, at) == Stock(b, at)
  {
    AvailableInRange(b, at);
  }

  lemma StockIsBetween(b: Bucket, at: int)
    requires Paced(b) && b.timestamp <= at
    ensures b.tokens <= Stock(b, at) <= b.capacity
  {
    AllowanceIsNat(b.rate, Millis(at - b.timestamp));
  }

  lemma AllowanceGrows(rate: nat, a: nat, b: nat)
    requires a <= b
    ensures Allowance(rate, a) <= Allowance(rate, b)
  {
    assert rate * a <= rate * b;
  }

  /** A negative timeout can break the pacing of a bucket on its own: one millisecond after a bucket of
      1000 bytes a second was emptied, a call with a timeout of minus two milliseconds is granted a full
      second's worth. */
  lemma NegativeTimeoutOverdraws()
    ensures var b := Bucket(1000, 1000, 0, 5_000_000);
            Consume(b, 1000, -2, 6_000_000) == Outcome(true, Bucket(1000, 1000, 0, 4_000_000), 4_000_000)
  {
    var b := Bucket(1000, 1000, 0, 5_000_000);
    WaitIsTheTimeout(b, 1000, -2, 6_000_000);
    NegativeRefillFillsBucket(b, -1);
    assert Millis(1_000_000) == 1 && Refill(1000, 1) == 1;
  }

  // ---------------------------------------------------------------- runs of calls

  // A call made some time after the previous one returned.
  datatype Call = Call(required: nat, timeout: int, delay: nat)

  function Later(b: Bucket, out: Outcome, now: Time): Time
    requires 0 <= out.until < 0x8000_0000_0000_0000
  {
    if out.until >= now then out.until else now
  }

  // The calls keep the clock in range, and none of them overdraws.
  ghost predicate InRange(b: Bucket, clock: Time, calls: seq<Call>)
    requires b.rate > 0
    decreases |calls|
  {
    calls != [] ==>
      var c := calls[0];
      && c.timeout <= 0x1_0000_0000
      && clock + c.delay < 0x8000_0000_0000_0000
      && !Overdraws(b, c.required, c.timeout, clock + c.delay)
      && ClockHolds(b, c.required, c.timeout, clock + c.delay)
      && var out := Consume(b, c.required, c.timeout, clock + c.delay);
         InRange(out.bucket, Later(b, out, clock + c.delay), calls[1..])
  }

  // Bytes granted, the bucket and the clock after the calls.
  ghost function Run(b: Bucket, clock: Time, calls: seq<Call>): (nat, Bucket, Time)
    requires b.rate > 0 && InRange(b, clock, calls)
    decreases |calls|
  {
    if calls == [] then (0, b, clock)
    else
      var c := calls[0];
      var out := Consume(b, c.required, c.timeout, clock + c.delay);
      var (granted, b', clock') := Run(out.bucket, Later(b, out, clock + c.delay), calls[1..]);
      (granted + if out.granted then c.required else 0, b', clock')
  }

  lemma AllowancesAdd(rate: nat, a: nat, b: nat)
    ensures Allowance(rate, Millis(a)) + Allowance(rate, Millis(b)) <= Allowance(rate, Millis(a + b))
  {
    var x, y, z := Millis(a), Millis(b), Millis(a + b);
    assert x + y <= z;
    assert rate * (x + y) == rate * x + rate * y;
    assert rate * (x + y) <= rate * z;
  }

  // One call that does not overdraw, from its bucket to the next.
  lemma CallConserves(b: Bucket, required: nat, timeout: int, now: Time)
    requires Paced(b) && b.timestamp <= now && timeout <= 0x1_0000_0000
    requires ClockHolds(b, required, timeout, now) && !Overdraws(b, required, timeout, now)
    ensures var out := Consume(b, required, timeout, now);
            && Paced(out.bucket) && out.bucket.rate == b.rate
            && 0 <= out.until < 0x8000_0000_0000_0000
            && b.timestamp <= out.bucket.timestamp <= Later(b, out, now)
            && (if out.granted then required else 0) + out.bucket.tokens
               <= b.tokens + Allowance(b.rate, Millis(out.bucket.timestamp - b.timestamp))
  {
    hide FinalTime, Available, Allowance;
    AvailableInRange(b, now);
    if required <= b.capacity && Available(b, now) < required {
      AllowanceIsNat(b.rate, Millis(now - b.timestamp));
      WaitIsTheTimeout(b, required, timeout, now);
      var final := FinalTime(b, required, timeout, now);
      if final < b.timestamp {
        AvailableEarly(b, final);
      } else {
        AvailableInRange(b, final);
      }
    }
  }

  lemma AllowanceIsNat(rate: nat, elapsed: nat)
    ensures Allowance(rate, elapsed) >= 0
  {
  }

  // Two windows in a row are one window.
  lemma WindowsAdd(b: Bucket, first: nat, mid: Bucket, rest: nat, end: Bucket)
    requires b.rate == mid.rate && b.timestamp <= mid.timestamp <= end.timestamp
    requires first + mid.tokens <= b.tokens + Allowance(b.rate, Millis(mid.timestamp - b.timestamp))
    requires rest + end.tokens <= mid.tokens + Allowance(b.rate, Millis(end.timestamp - mid.timestamp))
    ensures first + rest + end.tokens <= b.tokens + Allowance(b.rate, Millis(end.timestamp - b.timestamp))
  {
    hide Allowance;
    AllowancesAdd(b.rate, mid.timestamp - b.timestamp, end.timestamp - mid.timestamp);
  }

  /** Conservation over any window of any run of calls none of which overdraws: bytes granted plus tokens
      left never exceed the tokens at its start plus what the rate allows until the last grant. */
  lemma {:induction false} RunConserves(b: Bucket, clock: Time, calls: seq<Call>)
    requires Paced(b) && b.timestamp <= clock && InRange(b, clock, calls)
    ensures var (granted, b', clock') := Run(b, clock, calls);
            && Paced(b') && b'.rate == b.rate && b.timestamp <= b'.timestamp <= clock'
            && granted + b'.tokens <= b.tokens + Allowance(b.rate, Millis(b'.timestamp - b.timestamp))
    decreases |calls|
  {
    hide Consume, FinalTime, Allowance;
    if calls == [] {
      assert Allowance(b.rate, Millis(0)) >= 0;
    } else {
      var c := calls[0];
      var now := clock + c.delay;
      var out := Consume(b, c.required, c.timeout, now);
      CallConserves(b, c.required, c.timeout, now);
      RunConserves(out.bucket, Later(b, out, now), calls[1..]);
      var (rest, b', clock') := Run(out.bucket, Later(b, out, now), calls[1..]);
      WindowsAdd(b, if out.granted then c.required else 0, out.bucket, rest, b');
    }
  }

  /** The rate bound: from any bucket, the bytes granted over a run never exceed the rate plus the
      rate times the elapsed milliseconds over 1000. */
  lemma RateBound(b: Bucket, clock: Time, calls: seq<Call>)
    requires Paced(b) && b.timestamp <= clock && InRange(b, clock, calls)
    ensures var (granted, b', clock') := Run(b, clock, calls);
            clock' >= b.timestamp
            && granted <= b.rate + Allowance(b.rate, Millis(clock' - b.timestamp))
  {
    hide Allowance;
    RunConserves(b, clock, calls);
    var (granted, b', clock') := Run(b, clock, calls);
    AllowanceGrows(b.rate, Millis(b'.timestamp - b.timestamp), Millis(clock' - b.timestamp));
  }

  // ---------------------------------------------------------------- what a bucket must grant

  // What is lost to rounding down at one grant: less than a millisecond and less than a byte.
  function Rounding(rate: nat): nat {
    rate / MILLIS_PER_SECOND + 2
  }

  // Grants in the run.
  ghost function Grants(b: Bucket, clock: Time, calls: seq<Call>): nat
    requires b.rate > 0 && InRange(b, clock, calls)
    decreases |calls|
  {
    if calls == [] then 0
    else
      var c := calls[0];
      var out := Consume(b, c.required, c.timeout, clock + c.delay);
      (if out.granted then 1 else 0) + Grants(out.bucket, Later(b, out, clock + c.delay), calls[1..])
  }

  // No timeout of the run is negative, and no grant finds that the bucket had run over.
  ghost predicate NeverFull(b: Bucket, clock: Time, calls: seq<Call>)
    requires b.rate > 0 && InRange(b, clock, calls)
    decreases |calls|
  {
    calls != [] ==>
      var c := calls[0];
      var out := Consume(b, c.required, c.timeout, clock + c.delay);
      && c.timeout >= 0
      && (out.granted && b.timestamp <= out.until ==>
            b.tokens + Allowance(b.rate, Millis(out.until - b.timestamp)) <= b.capacity)
      && NeverFull(out.bucket, Later(b, out, clock + c.delay), calls[1..])
  }

  // A window of time allows little more than its two parts.
  lemma AllowancesLoseLittle(rate: nat, a: nat, b: nat)
    ensures Allowance(rate, Millis(a + b)) <= Allowance(rate, Millis(a)) + Allowance(rate, Millis(b)) + Rounding(rate)
  {
    var x, y, z := Millis(a), Millis(b), Millis(a + b);
    assert z <= x + y + 1;
    ProductGrows(rate, z, x + y + 1);
    assert rate * (x + y + 1) == rate * x + rate * y + rate;
    ThirdsAdd(rate * x, rate * y, rate);
  }

  lemma ProductGrows(rate: nat, a: nat, b: nat)
    requires a <= b
    ensures rate * a <= rate * b
  {
  }

  lemma ThirdsAdd(a: nat, b: nat, c: nat)
    ensures (a + b + c) / 1000 <= a / 1000 + b / 1000 + c / 1000 + 2
  {
  }

  lemma CallGrantsAtLeast(b: Bucket, required: nat, timeout: nat, now: Time)
    requires Paced(b) && b.timestamp <= now && timeout <= 0x1_0000_0000
    requires ClockHolds(b, required, timeout, now)
    requires var out := Consume(b, required, timeout, now);
             out.granted && b.timestamp <= out.until ==>
               b.tokens + Allowance(b.rate, Millis(out.until - b.timestamp)) <= b.capacity
    ensures var out := Consume(b, required, timeout, now);
            && Paced(out.bucket) && out.bucket.rate == b.rate && out.until >= now
            && b.timestamp <= out.bucket.timestamp <= out.until
            && (out.granted ==>
                  required + out.bucket.tokens
                  == b.tokens + Allowance(b.rate, Millis(out.bucket.timestamp - b.timestamp)))
            && (!out.granted ==> out.bucket == b)
  {
    hide Consume, Allowance;
    CallIsExact(b, required, timeout, now);
  }

  /** The other side of RunConserves: while the bucket never runs over, a run grants everything the rate allows
      but for the rounding, once for each grant. */
  lemma {:induction false} RunGrantsAtLeast(b: Bucket, clock: Time, calls: seq<Call>)
    requires Paced(b) && b.timestamp <= clock && InRange(b, clock, calls) && NeverFull(b, clock, calls)
    ensures var (granted, b', clock') := Run(b, clock, calls);
            && b.timestamp <= b'.timestamp
            && granted + b'.tokens + Grants(b, clock, calls) * Rounding(b.rate)
               >= b.tokens + Allowance(b.rate, Millis(b'.timestamp - b.timestamp))
    decreases |calls|
  {
    hide Consume, FinalTime, Allowance, Rounding;
    if calls == [] {
      NoTimeNoAllowance(b.rate);
    } else {
      var c := calls[0];
      var now := clock + c.delay;
      var out := Consume(b, c.required, c.timeout, now);
      CallGrantsAtLeast(b, c.required, c.timeout, now);
      RunGrantsAtLeast(out.bucket, Later(b, out, now), calls[1..]);
      var (rest, b', clock') := Run(out.bucket, Later(b, out, now), calls[1..]);
      var n := Grants(out.bucket, Later(b, out, now), calls[1..]);
      if out.granted {
        AllowancesLoseLittle(b.rate, out.bucket.timestamp - b.timestamp, b'.timestamp - out.bucket.timestamp);
        OneMore(n, Rounding(b.rate));
      }
    }
  }

  lemma OneMore(n: nat, x: nat)
    ensures (1 + n) * x == x + n * x
  {
  }

  lemma NoTimeNoAllowance(rate: nat)
    ensures Allowance(rate, Millis(0)) == 0
  {
  }

  /** Nobody waits for ever: a call for no more than the capacity that ends a second or more after the last
      grant is granted. */
  lemma GrantedWithinASecond(b: Bucket, required: nat, timeout: nat, now: Time)
    requires Paced(b) && b.timestamp <= now && timeout <= 0x1_0000_0000
    requires ClockHolds(b, required, timeout, now) && required <= b.capacity
    requires now + timeout * 1_000_000 - b.timestamp >= 1_000_000_000
    ensures Consume(b, required, timeout, now).granted
  {
    hide Consume, Allowance;
    CallIsExact(b, required, timeout, now);
    var at := DecidedAt(b, required, timeout, now);
    if Stock(b, now) < required {
      AllowanceGrows(b.rate, MILLIS_PER_SECOND, Millis(at - b.timestamp));
      SecondAllowsRate(b.rate);
    }
  }

  lemma SecondAllowsRate(rate: nat)
    ensures Allowance(rate, MILLIS_PER_SECOND) == rate
  {
  }

  // ---------------------------------------------------------------- the bucket

  class TokenBucket {
    const rate: nat
    const capacity: nat
    var tokens: nat
    var timestamp: Time

    ghost function Abs(): Bucket
      reads this
    {
      Bucket(rate, capacity, tokens, timestamp)
    }

    // A capacity of zero means the rate.
    constructor (rate: nat, capacity: nat, now: Time)
      ensures Abs() == (var c := if capacity == 0 then rate else capacity; Bucket(rate, c, c, now))
    {
      this.rate := rate;
      this.capacity := if capacity == 0 then rate else capacity;
      tokens := if capacity == 0 then rate else capacity;
      timestamp := now;
    }

    method ConsumeTokens(required: nat, timeout: int, now: Time) returns (granted: bool, until: int)
      requires rate > 0 && ClockHolds(Abs(), required, timeout, now)
      modifies this
      ensures Outcome(granted, Abs(), until) == Consume(old(Abs()), required, timeout, now)
    {
      if required > capacity {
        return false, now;
      }
      granted, until := false, now;
      var current := Min(capacity, (tokens + Refill(rate, Millis(now - timestamp))) % U64);
      if current < required {
        var wait := (MILLIS_PER_SECOND * ((tokens - required) % U64)) % U64 / rate;
        var finalTime := now + Min(wait, timeout) * NANOS_PER_MILLI;
        var expected := Min(capacity, (tokens + Refill(rate, Millis(finalTime - timestamp))) % U64);
        if expected >= required {
          tokens := expected - required;
          timestamp := finalTime;
          granted := true;
        }
        until := finalTime;
      } else {
        tokens := current - required;
        timestamp := now;
        granted := true;
      }
    }
  }
}
