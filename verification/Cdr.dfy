/** Common Data Representation as the agent uses it: every value is aligned to its width, counted
    from the start of the buffer, and stored little-endian; strings carry their length with a
    terminating NUL. Printing a type is a list of items; parsing reads them back one by one. */
module Cdr {
  import opened Words

  type Bytes = seq<u8>

  // A message buffer: shorter than what a 32-bit length field can tell.
  type Buffer = b: Bytes | |b| < 0xFFFF_FFFF

  type Pair = s: Bytes | |s| == 2 witness [0, 0]
  type Quad = s: Bytes | |s| == 4 witness [0, 0, 0, 0]
  type Sixteen = s: Bytes | |s| == 16 witness [0, 0, 0, 0, 0, 0, 0, 0, 0, 0, 0, 0, 0, 0, 0, 0]

  datatype Item =
    | Octet(octet: u8)
    | Short(short: u16)
    | Long(long: u32)
    | Raw(raw: Bytes)
    | String(text: Bytes)
    | OctetSeq(octets: Bytes)
    | Jump4

  // The << operations a type performs, in order.
  datatype Items = Done | Put(item: Item, rest: Items)

  function Padding(pos: nat, width: nat): (n: nat)
    requires width in {1, 2, 4}
    ensures n < width && (pos + n) % width == 0
  {
    if width == 1 then 0 else if width == 2 then (2 - pos % 2) % 2 else (4 - pos % 4) % 4
  }

  function Alignment(item: Item): nat {
    match item
    case Octet(_) => 1
    case Short(_) => 2
    case Long(_) => 4
    case Raw(_) => 1
    case String(_) => 4
    case OctetSeq(_) => 4
    case Jump4 => 4
  }

  // The 32-bit length of a sequence.
  function LengthField(n: nat): u32 {
    n % 0x1_0000_0000
  }

  function ShortBytes(x: u16): Bytes {
    [x % 256, x / 256]
  }

  function LongBytes(x: u32): Bytes {
    [x % 256, x / 0x100 % 256, x / 0x1_0000 % 256, x / 0x100_0000]
  }

  // What an item stores once aligned; Jump4 only aligns.
  function Body(item: Item): Bytes {
    match item
    case Octet(x) => [x]
    case Short(x) => ShortBytes(x)
    case Long(x) => LongBytes(x)
    case Raw(s) => s
    case String(s) => LongBytes(LengthField(|s| + 1)) + s + [0]
    case OctetSeq(s) => LongBytes(LengthField(|s|)) + s
    case Jump4 => []
  }

  function Start(pos: nat, item: Item): nat {
    pos + Padding(pos, Alignment(item))
  }

  function After(pos: nat, item: Item): nat {
    Start(pos, item) + |Body(item)|
  }

  // Where the cursor stands after all items.
  function End(pos: nat, items: Items): nat
    decreases items
  {
    match items
    case Done => pos
    case Put(item, rest) => End(After(pos, item), rest)
  }

  ghost predicate StoredAt(b: Bytes, pos: nat, body: Bytes) {
    pos + |body| <= |b| && b[pos..pos + |body|] == body
  }

  /** The buffer holds the items from pos on, whatever the padding contains. */
  ghost predicate Holds(b: Bytes, pos: nat, items: Items)
    decreases items
  {
    match items
    case Done => true
    case Put(item, rest) => StoredAt(b, Start(pos, item), Body(item)) && Holds(b, After(pos, item), rest)
  }

  lemma {:induction false} EndIsNotEarlier(pos: nat, items: Items)
    ensures End(pos, items) >= pos
    decreases items
  {
    if items.Put? {
      EndIsNotEarlier(After(pos, items.item), items.rest);
    }
  }

  // Buffers that agree up to the end of the items hold the same items.
  lemma {:induction false} HoldsLocally(b: Bytes, b': Bytes, pos: nat, items: Items)
    requires Holds(b, pos, items) && End(pos, items) <= |b'|
    requires forall i :: pos <= i < End(pos, items) && i < |b| ==> b'[i] == b[i]
    ensures Holds(b', pos, items)
    decreases items
  {
    if items.Put? {
      var p, q := Start(pos, items.item), After(pos, items.item);
      EndIsNotEarlier(q, items.rest);
      assert b'[p..q] == b[p..q];
      HoldsLocally(b, b', q, items.rest);
    }
  }

  // ---------------------------------------------------------------- reading

  /** The outcome of a read: a value and the new cursor, or the exception it throws. */
  datatype Read<+T> = Ok(value: T, pos: nat) | NotEnough | BadParam {
    predicate IsFailure() {
      !Ok?
    }
    function PropagateFailure<U>(): Read<U>
      requires !Ok?
    {
      if NotEnough? then NotEnough else BadParam
    }
    function Extract(): (T, nat)
      requires Ok?
    {
      (value, pos)
    }
  }

  function ReadOctet(b: Buffer, p: nat): Read<u8> {
    if p + 1 <= |b| then Ok(b[p], p + 1) else NotEnough
  }

  // A bool is an octet that must be 0 or 1.
  function ReadBool(b: Buffer, p: nat): Read<bool> {
    var (x, p) :- ReadOctet(b, p);
    if x == 0 then Ok(false, p) else if x == 1 then Ok(true, p) else BadParam
  }

  function ReadShort(b: Buffer, p: nat): Read<u16> {
    var q := p + Padding(p, 2);
    if q + 2 <= |b| then Ok((b[q] as int) + 0x100 * (b[q + 1] as int), q + 2) else NotEnough
  }

  function ReadLong(b: Buffer, p: nat): Read<u32> {
    var q := p + Padding(p, 4);
    if q + 4 <= |b|
    then
      Ok((b[q] as int) + 0x100 * (b[q + 1] as int) + 0x1_0000 * (b[q + 2] as int) + 0x100_0000 * (b[q + 3] as int),
         q + 4)
    else NotEnough
  }

  function ReadRaw(b: Buffer, p: nat, n: nat): (r: Read<Bytes>)
    ensures r.Ok? ==> |r.value| == n
  {
    if p + n <= |b| then Ok(b[p..p + n], p + n) else NotEnough
  }

  // The terminating NUL is dropped.
  function ReadString(b: Buffer, p: nat): Read<Bytes> {
    var (n, p) :- ReadLong(b, p);
    var (s, p) :- ReadRaw(b, p, n);
    Ok(if n > 0 && s[n - 1] == 0 then s[..n - 1] else s, p)
  }

  function ReadOctetSeq(b: Buffer, p: nat): Read<Bytes> {
    var (n, p) :- ReadLong(b, p);
    ReadRaw(b, p, n)
  }

  // ---------------------------------------------------------------- reading back

  lemma Stored(b: Bytes, p: nat, item: Item, rest: Items)
    requires Holds(b, p, Put(item, rest))
    ensures StoredAt(b, Start(p, item), Body(item)) && Holds(b, After(p, item), rest)
  {
  }

  lemma StoredByte(b: Bytes, p: nat, body: Bytes, i: nat)
    requires StoredAt(b, p, body) && i < |body|
    ensures p + i < |b| && b[p + i] == body[i]
  {
  }

  lemma ReadsOctet(b: Buffer, p: nat, x: u8, rest: Items) returns (q: nat)
    requires Holds(b, p, Put(Octet(x), rest))
    ensures ReadOctet(b, p) == Ok(x, q) && Holds(b, q, rest)
    ensures End(p, Put(Octet(x), rest)) == End(q, rest)
  {
    Stored(b, p, Octet(x), rest);
    StoredByte(b, p, [x], 0);
    q := p + 1;
  }

  function BoolOctet(x: bool): u8 {
    if x then 1 else 0
  }

  lemma ReadsBool(b: Buffer, p: nat, x: bool, rest: Items) returns (q: nat)
    requires Holds(b, p, Put(Octet(BoolOctet(x)), rest))
    ensures ReadBool(b, p) == Ok(x, q) && Holds(b, q, rest)
    ensures End(p, Put(Octet(BoolOctet(x)), rest)) == End(q, rest)
  {
    q := ReadsOctet(b, p, BoolOctet(x), rest);
  }

  lemma ReadsShort(b: Buffer, p: nat, x: u16, rest: Items) returns (q: nat)
    requires Holds(b, p, Put(Short(x), rest))
    ensures ReadShort(b, p) == Ok(x, q) && Holds(b, q, rest)
    ensures End(p, Put(Short(x), rest)) == End(q, rest)
  {
    Stored(b, p, Short(x), rest);
    var s := p + Padding(p, 2);
    StoredByte(b, s, ShortBytes(x), 0);
    StoredByte(b, s, ShortBytes(x), 1);
    q := s + 2;
  }

  lemma LongRecombines(x: u32)
    ensures x % 256 + 0x100 * (x / 0x100 % 256) + 0x1_0000 * (x / 0x1_0000 % 256) + 0x100_0000 * (x / 0x100_0000) == x
  {
    assert x / 0x100 == x / 0x1_0000 * 256 + x / 0x100 % 256;
    assert x / 0x1_0000 == x / 0x100_0000 * 256 + x / 0x1_0000 % 256;
  }

  lemma ReadsLongAt(b: Buffer, p: nat, x: u32)
    requires StoredAt(b, p + Padding(p, 4), LongBytes(x))
    ensures ReadLong(b, p) == Ok(x, p + Padding(p, 4) + 4)
  {
    var s := p + Padding(p, 4);
    StoredByte(b, s, LongBytes(x), 0);
    StoredByte(b, s, LongBytes(x), 1);
    StoredByte(b, s, LongBytes(x), 2);
    StoredByte(b, s, LongBytes(x), 3);
    LongRecombines(x);
  }

  lemma ReadsLong(b: Buffer, p: nat, x: u32, rest: Items) returns (q: nat)
    requires Holds(b, p, Put(Long(x), rest))
    ensures ReadLong(b, p) == Ok(x, q) && Holds(b, q, rest)
    ensures End(p, Put(Long(x), rest)) == End(q, rest)
  {
    Stored(b, p, Long(x), rest);
    ReadsLongAt(b, p, x);
    q := p + Padding(p, 4) + 4;
  }

  lemma ReadsRaw(b: Buffer, p: nat, s: Bytes, rest: Items) returns (q: nat)
    requires Holds(b, p, Put(Raw(s), rest))
    ensures ReadRaw(b, p, |s|) == Ok(s, q) && Holds(b, q, rest)
    ensures End(p, Put(Raw(s), rest)) == End(q, rest)
  {
    Stored(b, p, Raw(s), rest);
    q := p + |s|;
  }

  lemma StoredPrefix(b: Bytes, p: nat, s: Bytes, t: Bytes)
    requires StoredAt(b, p, s + t)
    ensures StoredAt(b, p, s) && StoredAt(b, p + |s|, t)
  {
    var whole := b[p..p + |s + t|];
    assert whole[..|s|] == s && whole[|s|..] == t;
    assert b[p..p + |s|] == whole[..|s|];
    assert b[p + |s|..p + |s| + |t|] == whole[|s|..];
  }

  lemma StringBody(s: Bytes)
    ensures |Body(String(s))| == 4 + |s| + 1
    ensures |s| + 1 < 0x1_0000_0000 ==> Body(String(s)) == LongBytes(|s| + 1) + (s + [0])
  {
  }

  lemma OctetSeqBody(s: Bytes)
    ensures |Body(OctetSeq(s))| == 4 + |s|
    ensures |s| < 0x1_0000_0000 ==> Body(OctetSeq(s)) == LongBytes(|s|) + s
  {
  }

  lemma StoredFits(b: Bytes, p: nat, body: Bytes)
    requires StoredAt(b, p, body)
    ensures p + |body| <= |b|
  {
  }

  // A length field followed by that many octets.
  lemma ReadsLengthThenRaw(b: Buffer, p: nat, s: Bytes)
    requires |s| < 0x1_0000_0000 && StoredAt(b, p + Padding(p, 4), LongBytes(|s|) + s)
    ensures var at := p + Padding(p, 4) + 4;
            ReadLong(b, p) == Ok(|s|, at) && ReadRaw(b, at, |s|) == Ok(s, at + |s|)
  {
    hide Padding;
    StoredPrefix(b, p + Padding(p, 4), LongBytes(|s|), s);
    ReadsLongAt(b, p, |s|);
  }

  lemma ReadsString(b: Buffer, p: nat, s: Bytes, rest: Items) returns (q: nat)
    requires Holds(b, p, Put(String(s), rest))
    ensures ReadString(b, p) == Ok(s, q) && Holds(b, q, rest)
    ensures End(p, Put(String(s), rest)) == End(q, rest)
  {
    hide LongBytes, ReadLong, ReadRaw, StoredAt, Padding, Body, Holds;
    Stored(b, p, String(s), rest);
    StringBody(s);
    StoredFits(b, Start(p, String(s)), Body(String(s)));
    ReadsLengthThenRaw(b, p, s + [0]);
    assert (s + [0])[..|s|] == s;
    q := After(p, String(s));
  }

  lemma ReadsOctetSeq(b: Buffer, p: nat, s: Bytes, rest: Items) returns (q: nat)
    requires Holds(b, p, Put(OctetSeq(s), rest))
    ensures ReadOctetSeq(b, p) == Ok(s, q) && Holds(b, q, rest)
    ensures End(p, Put(OctetSeq(s), rest)) == End(q, rest)
  {
    hide LongBytes, ReadLong, ReadRaw, StoredAt, Padding, Body, Holds;
    Stored(b, p, OctetSeq(s), rest);
    OctetSeqBody(s);
    StoredFits(b, Start(p, OctetSeq(s)), Body(OctetSeq(s)));
    ReadsLengthThenRaw(b, p, s);
    q := After(p, OctetSeq(s));
  }

  // ---------------------------------------------------------------- sizes

  // One term of a size computation: current += bytes + alignment(current, width).
  function Grow(current: nat, width: nat, bytes: nat): nat
    requires width in {1, 2, 4}
  {
    current + bytes + Padding(current, width)
  }

  // What the items occupy depends on the offset only modulo 4.
  lemma {:induction false} EndShifts(pos: nat, k: nat, items: Items)
    ensures End(pos + 4 * k, items) == End(pos, items) + 4 * k
    decreases items
  {
    if items.Put? {
      var w := Alignment(items.item);
      PaddingShifts(pos, k, w);
      EndShifts(After(pos, items.item), k, items.rest);
    }
  }

  lemma JumpOnAligned(a: nat, rest: Items)
    requires a % 4 == 0
    ensures End(a, Put(Jump4, rest)) == End(a, rest)
  {
  }

  // Starting no earlier, items end no earlier; starting four later or more, they end four later or more.
  lemma {:induction false} EndIsMonotone(p: nat, q: nat, items: Items)
    requires p <= q
    ensures End(p, items) <= End(q, items)
    decreases items
  {
    if items.Put? {
      StartIsMonotone(p, q, Alignment(items.item));
      EndIsMonotone(After(p, items.item), After(q, items.item), items.rest);
    }
  }

  lemma StartIsMonotone(p: nat, q: nat, width: nat)
    requires p <= q && width in {1, 2, 4}
    ensures p + Padding(p, width) <= q + Padding(q, width)
  {
  }

  lemma EndFourLater(p: nat, q: nat, items: Items)
    requires p + 4 <= q
    ensures End(p, items) + 4 <= End(q, items)
  {
    EndShifts(p, 1, items);
    EndIsMonotone(p + 4, q, items);
  }

  lemma PaddingShifts(pos: nat, k: nat, width: nat)
    requires width in {1, 2, 4}
    ensures Padding(pos + 4 * k, width) == Padding(pos, width)
  {
  }

  // The term of a size computation that each item accounts for.

  lemma CountsOctet(a: nat, x: u8, rest: Items) returns (c: nat)
    ensures c == Grow(a, 1, 1) && End(a, Put(Octet(x), rest)) == End(c, rest)
  {
    c := After(a, Octet(x));
  }

  lemma CountsShort(a: nat, x: u16, rest: Items) returns (c: nat)
    ensures c == Grow(a, 2, 2) && End(a, Put(Short(x), rest)) == End(c, rest)
  {
    c := After(a, Short(x));
  }

  lemma CountsLong(a: nat, x: u32, rest: Items) returns (c: nat)
    ensures c == Grow(a, 4, 4) && End(a, Put(Long(x), rest)) == End(c, rest)
  {
    c := After(a, Long(x));
  }

  lemma CountsRaw(a: nat, s: Bytes, rest: Items) returns (c: nat)
    ensures c == Grow(a, 1, |s|) && End(a, Put(Raw(s), rest)) == End(c, rest)
  {
    c := After(a, Raw(s));
  }

  lemma CountsString(a: nat, s: Bytes, rest: Items) returns (c: nat)
    ensures c == Grow(a, 4, 4 + |s| + 1) && End(a, Put(String(s), rest)) == End(c, rest)
  {
    StringBody(s);
    c := After(a, String(s));
  }

  lemma CountsOctetSeq(a: nat, s: Bytes, rest: Items) returns (c: nat)
    ensures c == Grow(Grow(a, 4, 4), 1, |s|) && End(a, Put(OctetSeq(s), rest)) == End(c, rest)
  {
    OctetSeqBody(s);
    c := After(a, OctetSeq(s));
  }

  lemma GrowBytes(a: nat, n: nat)
    ensures Grow(a, 1, n) == a + n
  {
  }

  lemma GrowWord(a: nat, width: nat)
    requires width in {2, 4}
    ensures a + width <= Grow(a, width, width)
    ensures Grow(a, width, width) == a + width <==> a % width == 0
  {
  }

  lemma EndOfDone(a: nat)
    ensures End(a, Done) == a
  {
  }
}
