/** Sixteen-bit serial numbers, as the agent's SeqNum class computes them, measured against
    the serial number arithmetic of RFC 1982 with SERIAL_BITS = 16. */
module SeqNums {
  import opened Words

  const MAX: int := 0x1_0000
  const ADD_RANGE_MAX: int := 32767

  // The conversion uint16_t(int).
  function ToU16(x: int): u16 {
    x % MAX
  }

  predicate Lt(l: u16, r: u16) {
    l != r &&
    ((l < r && r - l < ADD_RANGE_MAX + 1) || (l > r && l - r > ADD_RANGE_MAX + 1))
  }

  predicate Gt(l: u16, r: u16) {
    Lt(r, l)
  }

  predicate Leq(l: u16, r: u16) {
    !Gt(l, r)
  }

  predicate Geq(l: u16, r: u16) {
    !Lt(l, r)
  }

  // operator+=(int): values outside the range leave the number alone.
  function AddInt(s: u16, n: int): u16 {
    if 0 <= n <= ADD_RANGE_MAX then (s + ToU16(n)) % MAX else s
  }

  // operator+=(SeqNum): the range guard is itself evaluated in serial order.
  function AddSeq(s: u16, n: u16): u16 {
    if Geq(n, 0) && Leq(n, ADD_RANGE_MAX) then (s + n) % MAX else s
  }

  function SubInt(s: u16, n: int): u16 {
    var m := ToU16(n);
    if m > s then ToU16(s - m + MAX) else ToU16(s - m)
  }

  function Increment(s: u16): u16 {
    if s == 0xFFFF then 0 else s + 1
  }

  // How many increments lead from one number to the other.
  function Distance(from: u16, to: u16): (d: u16) {
    (to - from) % MAX
  }

  /** The comparison is exactly "reached by 1 to 32767 increments". */
  lemma LessThanIsHalfRange(a: u16, b: u16)
    ensures Lt(a, b) <==> 1 <= Distance(a, b) <= ADD_RANGE_MAX
  {
  }

  lemma AdditionAdvancesAndSubtractionUndoes(a: u16, n: int)
    requires 1 <= n <= ADD_RANGE_MAX
    ensures Lt(a, AddInt(a, n))
    ensures Distance(a, AddInt(a, n)) == n
    ensures SubInt(AddInt(a, n), n) == a
  {
  }

  /** Two steps forward are one step forward exactly when together they stay below half the range. */
  lemma TransitivityIsExact(a: u16, b: u16, c: u16)
    requires Lt(a, b) && Lt(b, c)
    ensures Distance(a, c) == Distance(a, b) + Distance(b, c)
    ensures Lt(a, c) <==> Distance(a, b) + Distance(b, c) < 32768
  {
  }

  /** Distinct numbers are unordered exactly at distance 32768; otherwise exactly one is smaller. */
  lemma OnlyHalfRangeIsIncomparable(a: u16, b: u16)
    requires a != b
    ensures !Lt(a, b) && !Lt(b, a) <==> Distance(a, b) == 32768
    ensures !(Lt(a, b) && Lt(b, a))
  {
  }

  /** The serially evaluated guard of += admits precisely 0..32767. */
  lemma AddGuardIsExact(s: u16, n: u16)
    ensures (Geq(n, 0) && Leq(n, ADD_RANGE_MAX)) <==> n <= ADD_RANGE_MAX
    ensures AddSeq(s, n) == AddInt(s, n)
  {
  }

  /** CedGlobalTopic::read decides "lapped" with two serial comparisons against
      lastWrite - history; for every history size up to half the range the test is
      exactly "at least history entries behind", even where the numbers compared are
      themselves unordered. */
  lemma LapTestIsExact(lastRead: u16, lastWrite: u16, h: int)
    requires 1 <= h <= 32768
    requires lastRead != lastWrite
    ensures (Leq(lastRead, SubInt(lastWrite, h)) || Gt(lastRead, lastWrite))
            <==> Distance(lastRead, lastWrite) >= h
  {
  }
}
