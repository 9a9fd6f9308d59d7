/** The XRCE types the agent prints and parses: for each, the size its getCdrSerializedSize computes,
    the items its serialize puts, and its deserialize. SizeIsExact lemmas say the size is what is put;
    ReadsBack lemmas say parsing what was put gives the value back and stops where it ends. */
module XrceTypes {
  import opened Words
  import opened Cdr

  // ---------------------------------------------------------------- requests, results, control payloads

  // BaseObjectRequest
  datatype Request = Request(requestId: Pair, objectId: Pair)

  datatype ResultStatus = ResultStatus(status: u8, implementation: u8)

  datatype AckNack = AckNack(first: u16, bitmap: Pair, stream: u8)

  datatype Heartbeat = Heartbeat(first: u16, last: u16, stream: u8)

  datatype Time = Time(seconds: u32, nanoseconds: u32)

  datatype DeliveryControl = DeliveryControl(
    maxSamples: u16,
    maxElapsedTime: u16,
    maxBytesPerSecond: u16,
    minPacePeriod: u16)

  datatype Property = Property(name: Bytes, value: Bytes)

  function RequestItems(v: Request, rest: Items): Items {
    Put(Raw(v.requestId), Put(Raw(v.objectId), rest))
  }

  function RequestSize(v: Request, a: nat): nat {
    var c1 := Grow(a, 1, 2);
    var c2 := Grow(c1, 1, 2);
    c2 - a
  }

  function ReadRequest(b: Buffer, p: nat): Read<Request> {
    var (requestId, p) :- ReadRaw(b, p, 2);
    var (objectId, p) :- ReadRaw(b, p, 2);
    Ok(Request(requestId, objectId), p)
  }

  lemma RequestSizeIsExact(v: Request, a: nat, rest: Items)
    ensures End(a, RequestItems(v, rest)) == End(a + RequestSize(v, a), rest)
  {
  }

  lemma RequestReadsBack(b: Buffer, p: nat, v: Request, rest: Items) returns (q: nat)
    requires Holds(b, p, RequestItems(v, rest))
    ensures ReadRequest(b, p) == Ok(v, q) && Holds(b, q, rest)
    ensures End(p, RequestItems(v, rest)) == End(q, rest)
  {
    hide Holds, End, ReadRaw;
    var k1 := Put(Raw(v.objectId), rest);
    q := ReadsRaw(b, p, v.requestId, k1);
    q := ReadsRaw(b, q, v.objectId, rest);
  }

  function ResultStatusItems(v: ResultStatus, rest: Items): Items {
    Put(Octet(v.status), Put(Octet(v.implementation), rest))
  }

  function ResultStatusSize(v: ResultStatus, a: nat): nat {
    var c1 := Grow(a, 1, 1);
    var c2 := Grow(c1, 1, 1);
    c2 - a
  }

  function ReadResultStatus(b: Buffer, p: nat): Read<ResultStatus> {
    var (status, p) :- ReadOctet(b, p);
    var (implementation, p) :- ReadOctet(b, p);
    Ok(ResultStatus(status, implementation), p)
  }

  lemma ResultStatusSizeIsExact(v: ResultStatus, a: nat, rest: Items)
    ensures End(a, ResultStatusItems(v, rest)) == End(a + ResultStatusSize(v, a), rest)
  {
  }

  lemma ResultStatusReadsBack(b: Buffer, p: nat, v: ResultStatus, rest: Items) returns (q: nat)
    requires Holds(b, p, ResultStatusItems(v, rest))
    ensures ReadResultStatus(b, p) == Ok(v, q) && Holds(b, q, rest)
    ensures End(p, ResultStatusItems(v, rest)) == End(q, rest)
  {
    hide Holds, End, ReadOctet;
    var k1 := Put(Octet(v.implementation), rest);
    q := ReadsOctet(b, p, v.status, k1);
    q := ReadsOctet(b, q, v.implementation, rest);
  }

  function AckNackItems(v: AckNack, rest: Items): Items {
    Put(Short(v.first), Put(Raw(v.bitmap), Put(Octet(v.stream), rest)))
  }

  function AckNackSize(v: AckNack, a: nat): nat {
    var c1 := Grow(a, 2, 2);
    var c2 := Grow(c1, 1, 2);
    var c3 := Grow(c2, 1, 1);
    c3 - a
  }

  function ReadAckNack(b: Buffer, p: nat): Read<AckNack> {
    var (first, p) :- ReadShort(b, p);
    var (bitmap, p) :- ReadRaw(b, p, 2);
    var (stream, p) :- ReadOctet(b, p);
    Ok(AckNack(first, bitmap, stream), p)
  }

  lemma AckNackSizeIsExact(v: AckNack, a: nat, rest: Items)
    ensures End(a, AckNackItems(v, rest)) == End(a + AckNackSize(v, a), rest)
  {
    hide Grow, End;
    var k2 := Put(Octet(v.stream), rest);
    var k1 := Put(Raw(v.bitmap), k2);
    var c := CountsShort(a, v.first, k1);
    c := CountsRaw(c, v.bitmap, k2);
    c := CountsOctet(c, v.stream, rest);
  }

  lemma AckNackReadsBack(b: Buffer, p: nat, v: AckNack, rest: Items) returns (q: nat)
    requires Holds(b, p, AckNackItems(v, rest))
    ensures ReadAckNack(b, p) == Ok(v, q) && Holds(b, q, rest)
    ensures End(p, AckNackItems(v, rest)) == End(q, rest)
  {
    hide Holds, End, ReadOctet, ReadRaw, ReadShort;
    var k2 := Put(Octet(v.stream), rest);
    var k1 := Put(Raw(v.bitmap), k2);
    q := ReadsShort(b, p, v.first, k1);
    q := ReadsRaw(b, q, v.bitmap, k2);
    q := ReadsOctet(b, q, v.stream, rest);
  }

  function HeartbeatItems(v: Heartbeat, rest: Items): Items {
    Put(Short(v.first), Put(Short(v.last), Put(Octet(v.stream), rest)))
  }

  function HeartbeatSize(v: Heartbeat, a: nat): nat {
    var c1 := Grow(a, 2, 2);
    var c2 := Grow(c1, 2, 2);
    var c3 := Grow(c2, 1, 1);
    c3 - a
  }

  function ReadHeartbeat(b: Buffer, p: nat): Read<Heartbeat> {
    var (first, p) :- ReadShort(b, p);
    var (last, p) :- ReadShort(b, p);
    var (stream, p) :- ReadOctet(b, p);
    Ok(Heartbeat(first, last, stream), p)
  }

  lemma HeartbeatSizeIsExact(v: Heartbeat, a: nat, rest: Items)
    ensures End(a, HeartbeatItems(v, rest)) == End(a + HeartbeatSize(v, a), rest)
  {
    hide Grow, End;
    var k2 := Put(Octet(v.stream), rest);
    var k1 := Put(Short(v.last), k2);
    var c := CountsShort(a, v.first, k1);
    c := CountsShort(c, v.last, k2);
    c := CountsOctet(c, v.stream, rest);
  }

  lemma HeartbeatReadsBack(b: Buffer, p: nat, v: Heartbeat, rest: Items) returns (q: nat)
    requires Holds(b, p, HeartbeatItems(v, rest))
    ensures ReadHeartbeat(b, p) == Ok(v, q) && Holds(b, q, rest)
    ensures End(p, HeartbeatItems(v, rest)) == End(q, rest)
  {
    hide Holds, End, ReadOctet, ReadShort;
    var k2 := Put(Octet(v.stream), rest);
    var k1 := Put(Short(v.last), k2);
    q := ReadsShort(b, p, v.first, k1);
    q := ReadsShort(b, q, v.last, k2);
    q := ReadsOctet(b, q, v.stream, rest);
  }

  function TimeItems(v: Time, rest: Items): Items {
    Put(Long(v.seconds), Put(Long(v.nanoseconds), rest))
  }

  function TimeSize(v: Time, a: nat): nat {
    var c1 := Grow(a, 4, 4);
    var c2 := Grow(c1, 4, 4);
    c2 - a
  }

  function ReadTime(b: Buffer, p: nat): Read<Time> {
    var (seconds, p) :- ReadLong(b, p);
    var (nanoseconds, p) :- ReadLong(b, p);
    Ok(Time(seconds, nanoseconds), p)
  }

  lemma TimeSizeIsExact(v: Time, a: nat, rest: Items)
    ensures End(a, TimeItems(v, rest)) == End(a + TimeSize(v, a), rest)
  {
  }

  lemma TimeReadsBack(b: Buffer, p: nat, v: Time, rest: Items) returns (q: nat)
    requires Holds(b, p, TimeItems(v, rest))
    ensures ReadTime(b, p) == Ok(v, q) && Holds(b, q, rest)
    ensures End(p, TimeItems(v, rest)) == End(q, rest)
  {
    hide Holds, End, ReadLong;
    var k1 := Put(Long(v.nanoseconds), rest);
    q := ReadsLong(b, p, v.seconds, k1);
    q := ReadsLong(b, q, v.nanoseconds, rest);
  }

  function DeliveryControlItems(v: DeliveryControl, rest: Items): Items {
    Put(Short(v.maxSamples), Put(Short(v.maxElapsedTime),
      Put(Short(v.maxBytesPerSecond), Put(Short(v.minPacePeriod), rest))))
  }

  function DeliveryControlSize(v: DeliveryControl, a: nat): nat {
    var c1 := Grow(a, 2, 2);
    var c2 := Grow(c1, 2, 2);
    var c3 := Grow(c2, 2, 2);
    var c4 := Grow(c3, 2, 2);
    c4 - a
  }

  function ReadDeliveryControl(b: Buffer, p: nat): Read<DeliveryControl> {
    var (maxSamples, p) :- ReadShort(b, p);
    var (maxElapsedTime, p) :- ReadShort(b, p);
    var (maxBytesPerSecond, p) :- ReadShort(b, p);
    var (minPacePeriod, p) :- ReadShort(b, p);
    Ok(DeliveryControl(maxSamples, maxElapsedTime, maxBytesPerSecond, minPacePeriod), p)
  }

  lemma DeliveryControlSizeIsExact(v: DeliveryControl, a: nat, rest: Items)
    ensures End(a, DeliveryControlItems(v, rest)) == End(a + DeliveryControlSize(v, a), rest)
  {
    hide Grow, End;
    var k3 := Put(Short(v.minPacePeriod), rest);
    var k2 := Put(Short(v.maxBytesPerSecond), k3);
    var k1 := Put(Short(v.maxElapsedTime), k2);
    var c := CountsShort(a, v.maxSamples, k1);
    c := CountsShort(c, v.maxElapsedTime, k2);
    c := CountsShort(c, v.maxBytesPerSecond, k3);
    c := CountsShort(c, v.minPacePeriod, rest);
  }

  lemma DeliveryControlReadsBack(b: Buffer, p: nat, v: DeliveryControl, rest: Items) returns (q: nat)
    requires Holds(b, p, DeliveryControlItems(v, rest))
    ensures ReadDeliveryControl(b, p) == Ok(v, q) && Holds(b, q, rest)
    ensures End(p, DeliveryControlItems(v, rest)) == End(q, rest)
  {
    hide Holds, End, ReadShort;
    var k3 := Put(Short(v.minPacePeriod), rest);
    var k2 := Put(Short(v.maxBytesPerSecond), k3);
    var k1 := Put(Short(v.maxElapsedTime), k2);
    q := ReadsShort(b, p, v.maxSamples, k1);
    q := ReadsShort(b, q, v.maxElapsedTime, k2);
    q := ReadsShort(b, q, v.maxBytesPerSecond, k3);
    q := ReadsShort(b, q, v.minPacePeriod, rest);
  }

  function PropertyItems(v: Property, rest: Items): Items {
    Put(String(v.name), Put(String(v.value), rest))
  }

  function PropertySize(v: Property, a: nat): nat {
    var c1 := Grow(a, 4, 4 + |v.name| + 1);
    var c2 := Grow(c1, 4, 4 + |v.value| + 1);
    c2 - a
  }

  function ReadProperty(b: Buffer, p: nat): Read<Property> {
    var (name, p) :- ReadString(b, p);
    var (value, p) :- ReadString(b, p);
    Ok(Property(name, value), p)
  }

  lemma PropertySizeIsExact(v: Property, a: nat, rest: Items)
    ensures End(a, PropertyItems(v, rest)) == End(a + PropertySize(v, a), rest)
  {
  }

  lemma PropertyReadsBack(b: Buffer, p: nat, v: Property, rest: Items) returns (q: nat)
    requires Holds(b, p, PropertyItems(v, rest))
    ensures ReadProperty(b, p) == Ok(v, q) && Holds(b, q, rest)
    ensures End(p, PropertyItems(v, rest)) == End(q, rest)
  {
    hide Holds, End, ReadString;
    var k1 := Put(String(v.value), rest);
    q := ReadsString(b, p, v.name, k1);
    q := ReadsString(b, q, v.value, rest);
  }

  // ---------------------------------------------------------------- properties

  function PropertiesItems(ps: seq<Property>, rest: Items): Items
    decreases |ps|
  {
    if ps == [] then rest else PropertyItems(ps[0], PropertiesItems(ps[1..], rest))
  }

  function PropertiesSize(ps: seq<Property>, a: nat): nat
    decreases |ps|
  {
    if ps == [] then 0
    else
      var first := PropertySize(ps[0], a);
      first + PropertiesSize(ps[1..], a + first)
  }

  function ReadProperties(b: Buffer, p: nat, n: nat): Read<seq<Property>>
    decreases n
  {
    if n == 0 then Ok([], p)
    else
      var (first, p) :- ReadProperty(b, p);
      var (others, p) :- ReadProperties(b, p, n - 1);
      Ok([first] + others, p)
  }

  lemma {:induction false} PropertiesSizeIsExact(ps: seq<Property>, a: nat, rest: Items)
    ensures End(a, PropertiesItems(ps, rest)) == End(a + PropertiesSize(ps, a), rest)
    decreases |ps|
  {
    hide End, PropertySize, PropertyItems;
    if ps != [] {
      PropertySizeIsExact(ps[0], a, PropertiesItems(ps[1..], rest));
      PropertiesSizeIsExact(ps[1..], a + PropertySize(ps[0], a), rest);
    }
  }

  lemma {:induction false} PropertiesReadBack(b: Buffer, p: nat, ps: seq<Property>, rest: Items) returns (q: nat)
    requires Holds(b, p, PropertiesItems(ps, rest))
    ensures ReadProperties(b, p, |ps|) == Ok(ps, q) && Holds(b, q, rest)
    ensures End(p, PropertiesItems(ps, rest)) == End(q, rest)
    decreases |ps|
  {
    hide Holds, End, ReadProperty, PropertyItems;
    q := p;
    if ps != [] {
      var m := PropertyReadsBack(b, p, ps[0], PropertiesItems(ps[1..], rest));
      q := PropertiesReadBack(b, m, ps[1..], rest);
      assert [ps[0]] + ps[1..] == ps;
    }
  }

  type PropertySeq = Option<seq<Property>>

  // bool(m_properties), and the sequence with its length when there is one.
  function OptionalPropertiesItems(ps: PropertySeq, rest: Items): Items {
    Put(Octet(BoolOctet(ps.Some?)),
        if ps.Some? then Put(Long(LengthField(|ps.value|)), PropertiesItems(ps.value, rest)) else rest)
  }

  // The size leaves the sequence's length out.
  function OptionalPropertiesSize(ps: PropertySeq, a: nat): nat {
    var c1 := Grow(a, 1, 1);
    var c2 := if ps.Some? then c1 + PropertiesSize(ps.value, c1) else c1;
    c2 - a
  }

  function ReadOptionalProperties(b: Buffer, p: nat): Read<PropertySeq> {
    var (flag, p) :- ReadBool(b, p);
    if flag then
      var (n, p) :- ReadLong(b, p);
      var (ps, p) :- ReadProperties(b, p, n);
      Ok(Some(ps), p)
    else Ok(None, p)
  }

  lemma OptionalPropertiesReadBack(b: Buffer, p: nat, ps: PropertySeq, rest: Items) returns (q: nat)
    requires Holds(b, p, OptionalPropertiesItems(ps, rest))
    ensures ReadOptionalProperties(b, p) == Ok(ps, q) && Holds(b, q, rest)
    ensures End(p, OptionalPropertiesItems(ps, rest)) == End(q, rest)
  {
    hide Holds, End, ReadBool, ReadLong, ReadProperties, PropertiesItems;
    if ps.Some? {
      var k1 := PropertiesItems(ps.value, rest);
      var n := LengthField(|ps.value|);
      q := ReadsBool(b, p, true, Put(Long(n), k1));
      q := ReadsLong(b, q, n, k1);
      PropertiesFit(b, q, ps.value, rest);
      assert n == |ps.value|;
      q := PropertiesReadBack(b, q, ps.value, rest);
    } else {
      q := ReadsBool(b, p, false, rest);
    }
  }

  // Properties stored in a buffer are fewer than its bytes.
  lemma {:induction false} PropertiesFit(b: Buffer, p: nat, ps: seq<Property>, rest: Items)
    requires Holds(b, p, PropertiesItems(ps, rest))
    ensures ps != [] ==> p + |ps| <= |b|
    decreases |ps|
  {
    if ps != [] {
      hide Padding, LongBytes;
      var k := PropertiesItems(ps[1..], rest);
      Stored(b, p, String(ps[0].name), Put(String(ps[0].value), k));
      StringBody(ps[0].name);
      var m := After(p, String(ps[0].name));
      Stored(b, m, String(ps[0].value), k);
      PropertiesFit(b, After(m, String(ps[0].value)), ps[1..], rest);
    }
  }

  // Where the optional properties end; a length stands before the sequence.
  function OptionalPropertiesEnd(ps: PropertySeq, a: nat): nat {
    if ps.None? then a + 1 else var c := Grow(a + 1, 4, 4); c + PropertiesSize(ps.value, c)
  }

  lemma NoPropertiesEnd(ps: PropertySeq, a: nat)
    ensures ps.None? ==> OptionalPropertiesEnd(ps, a) == a + 1
  {
  }

  lemma OptionalPropertiesEndThere(ps: PropertySeq, a: nat, rest: Items)
    ensures End(a, OptionalPropertiesItems(ps, rest)) == End(OptionalPropertiesEnd(ps, a), rest)
  {
    hide Grow, End, PropertiesItems, PropertiesSize, LengthField;
    GrowBytes(a, 1);
    if ps.Some? {
      var n := LengthField(|ps.value|);
      var k1 := PropertiesItems(ps.value, rest);
      var c := CountsOctet(a, 1, Put(Long(n), k1));
      c := CountsLong(c, n, k1);
      PropertiesSizeIsExact(ps.value, c, rest);
    } else {
      var c := CountsOctet(a, 0, rest);
    }
  }

  lemma {:induction false} PropertiesSizeShifts(ps: seq<Property>, a: nat)
    ensures PropertiesSize(ps, a + 4) == PropertiesSize(ps, a)
    decreases |ps|
  {
    if ps != [] {
      PropertySizeShifts(ps[0], a);
      PropertiesSizeShifts(ps[1..], a + PropertySize(ps[0], a));
    }
  }

  lemma GrowShifts(a: nat, n: nat)
    ensures Grow(a + 4, 4, n) == Grow(a, 4, n) + 4
    ensures Grow(Grow(a, 4, 4), 4, n) == Grow(a, 4, n) + 4
  {
  }

  lemma PropertySizeShifts(v: Property, a: nat)
    ensures PropertySize(v, a + 4) == PropertySize(v, a)
    ensures Grow(a, 4, 4) + PropertySize(v, Grow(a, 4, 4)) == a + PropertySize(v, a) + 4
  {
    hide Grow;
    GrowShifts(a, 4 + |v.name| + 1);
    GrowShifts(Grow(a, 4, 4 + |v.name| + 1), 4 + |v.value| + 1);
  }

  /** The size of optional properties is exact when there are none, and falls short of what is put by the
      length field, four bytes or more, when there are. */
  lemma OptionalPropertiesSizeFallsShort(ps: PropertySeq, a: nat)
    ensures ps.None? ==> OptionalPropertiesEnd(ps, a) == a + OptionalPropertiesSize(ps, a)
    ensures ps.Some? ==> OptionalPropertiesEnd(ps, a) >= a + OptionalPropertiesSize(ps, a) + 4
  {
    hide Grow, PropertySize;
    GrowBytes(a, 1);
    GrowWord(a + 1, 4);
    if ps.Some? && ps.value != [] {
      PropertySizeShifts(ps.value[0], a + 1);
      PropertiesSizeShifts(ps.value[1..], a + 1 + PropertySize(ps.value[0], a + 1));
    }
  }

  // ---------------------------------------------------------------- clients and agents

  datatype ClientRep = ClientRep(
    cookie: Quad,
    version: Pair,
    vendor: Pair,
    key: Quad,
    session: u8,
    properties: PropertySeq,
    mtu: u16)

  datatype AgentRep = AgentRep(cookie: Quad, version: Pair, vendor: Pair, properties: PropertySeq)

  function ClientRepItems(v: ClientRep, rest: Items): Items {
    Put(Raw(v.cookie), Put(Raw(v.version), Put(Raw(v.vendor), Put(Raw(v.key), Put(Octet(v.session),
      OptionalPropertiesItems(v.properties, Put(Short(v.mtu), rest)))))))
  }

  // The maximum transmission unit is counted as two unaligned bytes.
  function ClientRepSize(v: ClientRep, a: nat): nat {
    var c1 := Grow(a, 1, 4);
    var c2 := Grow(c1, 1, 2);
    var c3 := Grow(c2, 1, 2);
    var c4 := Grow(c3, 1, 4);
    var c5 := Grow(c4, 1, 1);
    var c6 := c5 + OptionalPropertiesSize(v.properties, c5);
    var c7 := Grow(c6, 1, 2);
    c7 - a
  }

  function ReadClientRep(b: Buffer, p: nat): Read<ClientRep> {
    var (cookie, p) :- ReadRaw(b, p, 4);
    var (version, p) :- ReadRaw(b, p, 2);
    var (vendor, p) :- ReadRaw(b, p, 2);
    var (key, p) :- ReadRaw(b, p, 4);
    var (session, p) :- ReadOctet(b, p);
    var (properties, p) :- ReadOptionalProperties(b, p);
    var (mtu, p) :- ReadShort(b, p);
    Ok(ClientRep(cookie, version, vendor, key, session, properties, mtu), p)
  }

  lemma ClientRepReadsBack(b: Buffer, p: nat, v: ClientRep, rest: Items) returns (q: nat)
    requires Holds(b, p, ClientRepItems(v, rest))
    ensures ReadClientRep(b, p) == Ok(v, q) && Holds(b, q, rest)
    ensures End(p, ClientRepItems(v, rest)) == End(q, rest)
  {
    hide Holds, End, ReadRaw, ReadOctet, ReadOptionalProperties, ReadShort, OptionalPropertiesItems;
    var k6 := Put(Short(v.mtu), rest);
    var k5 := OptionalPropertiesItems(v.properties, k6);
    var k4 := Put(Octet(v.session), k5);
    var k3 := Put(Raw(v.key), k4);
    var k2 := Put(Raw(v.vendor), k3);
    var k1 := Put(Raw(v.version), k2);
    q := ReadsRaw(b, p, v.cookie, k1);
    q := ReadsRaw(b, q, v.version, k2);
    q := ReadsRaw(b, q, v.vendor, k3);
    q := ReadsRaw(b, q, v.key, k4);
    q := ReadsOctet(b, q, v.session, k5);
    q := OptionalPropertiesReadBack(b, q, v.properties, k6);
    q := ReadsShort(b, q, v.mtu, rest);
  }

  lemma ClientRepEndsThere(v: ClientRep, a: nat, rest: Items)
    ensures End(a, ClientRepItems(v, rest)) == End(Grow(OptionalPropertiesEnd(v.properties, a + 13), 2, 2), rest)
  {
    hide Grow, End, OptionalPropertiesItems, OptionalPropertiesEnd;
    GrowBytes(a, 4);
    GrowBytes(a + 4, 2);
    GrowBytes(a + 6, 2);
    GrowBytes(a + 8, 4);
    GrowBytes(a + 12, 1);
    var k6 := Put(Short(v.mtu), rest);
    var k5 := OptionalPropertiesItems(v.properties, k6);
    var k4 := Put(Octet(v.session), k5);
    var k3 := Put(Raw(v.key), k4);
    var k2 := Put(Raw(v.vendor), k3);
    var k1 := Put(Raw(v.version), k2);
    var c := CountsRaw(a, v.cookie, k1);
    c := CountsRaw(c, v.version, k2);
    c := CountsRaw(c, v.vendor, k3);
    c := CountsRaw(c, v.key, k4);
    c := CountsOctet(c, v.session, k5);
    OptionalPropertiesEndThere(v.properties, c, k6);
    c := CountsShort(OptionalPropertiesEnd(v.properties, c), v.mtu, rest);
  }

  lemma ClientRepSizeIs(v: ClientRep, a: nat)
    ensures ClientRepSize(v, a) == 13 + OptionalPropertiesSize(v.properties, a + 13) + 2
  {
  }

  /** CLIENT_Representation is sized exactly when it carries no properties and starts at an even offset. */
  lemma ClientRepSizeIsExactIff(v: ClientRep, a: nat)
    ensures End(a, ClientRepItems(v, Done)) == a + ClientRepSize(v, a) <==> v.properties.None? && a % 2 == 0
  {
    hide Grow, End, ClientRepItems, ClientRepSize, OptionalPropertiesEnd, OptionalPropertiesSize;
    ClientRepEndsThere(v, a, Done);
    EndOfDone(Grow(OptionalPropertiesEnd(v.properties, a + 13), 2, 2));
    ClientRepSizeIs(v, a);
    OptionalPropertiesSizeFallsShort(v.properties, a + 13);
    NoPropertiesEnd(v.properties, a + 13);
    GrowWord(OptionalPropertiesEnd(v.properties, a + 13), 2);
  }

  lemma ClientRepSizeIsExact(v: ClientRep, a: nat, rest: Items)
    requires v.properties.None? && a % 2 == 0
    ensures End(a, ClientRepItems(v, rest)) == End(a + ClientRepSize(v, a), rest)
  {
    hide ClientRepItems, ClientRepSize, Grow;
    ClientRepEndsThere(v, a, rest);
    ClientRepEndsThere(v, a, Done);
    ClientRepSizeIsExactIff(v, a);
  }

  // With properties, the size falls short of what is put by four bytes or more.
  lemma ClientRepSizeFallsShort(v: ClientRep, a: nat, rest: Items) returns (e: nat)
    requires v.properties.Some?
    ensures End(a, ClientRepItems(v, rest)) == End(e, rest) && e >= a + ClientRepSize(v, a) + 4
  {
    hide Grow, End, ClientRepItems, ClientRepSize, OptionalPropertiesEnd, OptionalPropertiesSize;
    ClientRepEndsThere(v, a, rest);
    ClientRepSizeIs(v, a);
    OptionalPropertiesSizeFallsShort(v.properties, a + 13);
    GrowWord(OptionalPropertiesEnd(v.properties, a + 13), 2);
    e := Grow(OptionalPropertiesEnd(v.properties, a + 13), 2, 2);
  }

  function AgentRepItems(v: AgentRep, rest: Items): Items {
    Put(Raw(v.cookie), Put(Raw(v.version), Put(Raw(v.vendor), OptionalPropertiesItems(v.properties, rest))))
  }

  function AgentRepSize(v: AgentRep, a: nat): nat {
    var c1 := Grow(a, 1, 4);
    var c2 := Grow(c1, 1, 2);
    var c3 := Grow(c2, 1, 2);
    var c4 := c3 + OptionalPropertiesSize(v.properties, c3);
    c4 - a
  }

  function ReadAgentRep(b: Buffer, p: nat): Read<AgentRep> {
    var (cookie, p) :- ReadRaw(b, p, 4);
    var (version, p) :- ReadRaw(b, p, 2);
    var (vendor, p) :- ReadRaw(b, p, 2);
    var (properties, p) :- ReadOptionalProperties(b, p);
    Ok(AgentRep(cookie, version, vendor, properties), p)
  }

  lemma AgentRepReadsBack(b: Buffer, p: nat, v: AgentRep, rest: Items) returns (q: nat)
    requires Holds(b, p, AgentRepItems(v, rest))
    ensures ReadAgentRep(b, p) == Ok(v, q) && Holds(b, q, rest)
    ensures End(p, AgentRepItems(v, rest)) == End(q, rest)
  {
    hide Holds, End, ReadRaw, ReadOptionalProperties, OptionalPropertiesItems;
    var k3 := OptionalPropertiesItems(v.properties, rest);
    var k2 := Put(Raw(v.vendor), k3);
    var k1 := Put(Raw(v.version), k2);
    q := ReadsRaw(b, p, v.cookie, k1);
    q := ReadsRaw(b, q, v.version, k2);
    q := ReadsRaw(b, q, v.vendor, k3);
    q := OptionalPropertiesReadBack(b, q, v.properties, rest);
  }

  lemma AgentRepEndsThere(v: AgentRep, a: nat, rest: Items)
    ensures End(a, AgentRepItems(v, rest)) == End(OptionalPropertiesEnd(v.properties, a + 8), rest)
    ensures AgentRepSize(v, a) == 8 + OptionalPropertiesSize(v.properties, a + 8)
  {
    hide Grow, End, OptionalPropertiesItems, OptionalPropertiesEnd, OptionalPropertiesSize;
    GrowBytes(a, 4);
    GrowBytes(a + 4, 2);
    GrowBytes(a + 6, 2);
    var k3 := OptionalPropertiesItems(v.properties, rest);
    var k2 := Put(Raw(v.vendor), k3);
    var k1 := Put(Raw(v.version), k2);
    var c := CountsRaw(a, v.cookie, k1);
    c := CountsRaw(c, v.version, k2);
    c := CountsRaw(c, v.vendor, k3);
    OptionalPropertiesEndThere(v.properties, c, rest);
  }

  /** AGENT_Representation is sized exactly when it carries no properties. */
  lemma AgentRepSizeIsExactIff(v: AgentRep, a: nat)
    ensures End(a, AgentRepItems(v, Done)) == a + AgentRepSize(v, a) <==> v.properties.None?
  {
    hide AgentRepItems, AgentRepSize, OptionalPropertiesEnd, OptionalPropertiesSize;
    AgentRepEndsThere(v, a, Done);
    OptionalPropertiesSizeFallsShort(v.properties, a + 8);
  }

  lemma AgentRepSizeIsExact(v: AgentRep, a: nat, rest: Items)
    requires v.properties.None?
    ensures End(a, AgentRepItems(v, rest)) == End(a + AgentRepSize(v, a), rest)
  {
    hide AgentRepItems, AgentRepSize, OptionalPropertiesEnd, OptionalPropertiesSize;
    AgentRepEndsThere(v, a, rest);
    OptionalPropertiesSizeFallsShort(v.properties, a + 8);
  }

  lemma AgentRepSizeFallsShort(v: AgentRep, a: nat, rest: Items) returns (e: nat)
    requires v.properties.Some?
    ensures End(a, AgentRepItems(v, rest)) == End(e, rest) && e >= a + AgentRepSize(v, a) + 4
  {
    hide End, AgentRepItems, AgentRepSize, OptionalPropertiesEnd, OptionalPropertiesSize;
    AgentRepEndsThere(v, a, rest);
    OptionalPropertiesSizeFallsShort(v.properties, a + 8);
    e := OptionalPropertiesEnd(v.properties, a + 8);
  }

  // ---------------------------------------------------------------- representations of objects

  const REPRESENTATION_BY_REFERENCE: u8 := 0x01
  const REPRESENTATION_AS_XML_STRING: u8 := 0x02
  const REPRESENTATION_IN_BINARY: u8 := 0x03

  /** The three unions over representation formats share their shape and differ in the formats they
      know; any other discriminator stands alone. */
  datatype Representation = ByReference(ref: Bytes) | AsXmlString(xml: Bytes) | InBinary(binary: Bytes) | Bare(tag: u8)

  datatype Formats = Formats(byReference: bool, inBinary: bool)

  const THREE_FORMATS := Formats(true, true)
  const REF_AND_XML := Formats(true, false)
  const BIN_AND_XML := Formats(false, true)

  predicate Knows(f: Formats, tag: u8) {
    (tag == REPRESENTATION_BY_REFERENCE && f.byReference)
    || tag == REPRESENTATION_AS_XML_STRING
    || (tag == REPRESENTATION_IN_BINARY && f.inBinary)
  }

  function Tag(v: Representation): u8 {
    match v
    case ByReference(_) => REPRESENTATION_BY_REFERENCE
    case AsXmlString(_) => REPRESENTATION_AS_XML_STRING
    case InBinary(_) => REPRESENTATION_IN_BINARY
    case Bare(tag) => tag
  }

  predicate InFormats(f: Formats, v: Representation) {
    Knows(f, Tag(v)) <==> !v.Bare?
  }

  function RepresentationItems(v: Representation, rest: Items): Items {
    Put(Octet(Tag(v)),
        match v
        case ByReference(s) => Put(String(s), rest)
        case AsXmlString(s) => Put(String(s), rest)
        case InBinary(s) => Put(OctetSeq(s), rest)
        case Bare(_) => rest)
  }

  function RepresentationSize(v: Representation, a: nat): nat {
    var c1 := Grow(a, 1, 1);
    var c2 := match v
      case ByReference(s) => Grow(c1, 4, 4 + |s| + 1)
      case AsXmlString(s) => Grow(c1, 4, 4 + |s| + 1)
      case InBinary(s) => Grow(Grow(c1, 4, 4), 1, |s|)
      case Bare(_) => c1;
    c2 - a
  }

  function ReadRepresentation(b: Buffer, p: nat, f: Formats): Read<Representation> {
    var (tag, p) :- ReadOctet(b, p);
    if !Knows(f, tag) then Ok(Bare(tag), p)
    else if tag == REPRESENTATION_BY_REFERENCE then var (s, p) :- ReadString(b, p); Ok(ByReference(s), p)
    else if tag == REPRESENTATION_AS_XML_STRING then var (s, p) :- ReadString(b, p); Ok(AsXmlString(s), p)
    else var (s, p) :- ReadOctetSeq(b, p); Ok(InBinary(s), p)
  }

  lemma RepresentationSizeIsExact(v: Representation, a: nat, rest: Items)
    ensures End(a, RepresentationItems(v, rest)) == End(a + RepresentationSize(v, a), rest)
  {
    hide Grow, End;
    match v
    case ByReference(s) =>
      var c := CountsOctet(a, Tag(v), Put(String(s), rest));
      c := CountsString(c, s, rest);
    case AsXmlString(s) =>
      var c := CountsOctet(a, Tag(v), Put(String(s), rest));
      c := CountsString(c, s, rest);
    case InBinary(s) =>
      var c := CountsOctet(a, Tag(v), Put(OctetSeq(s), rest));
      c := CountsOctetSeq(c, s, rest);
    case Bare(_) =>
      var c := CountsOctet(a, Tag(v), rest);
  }

  lemma RepresentationReadsBack(b: Buffer, p: nat, f: Formats, v: Representation, rest: Items) returns (q: nat)
    requires InFormats(f, v) && Holds(b, p, RepresentationItems(v, rest))
    ensures ReadRepresentation(b, p, f) == Ok(v, q) && Holds(b, q, rest)
    ensures End(p, RepresentationItems(v, rest)) == End(q, rest)
  {
    hide Holds, End, ReadOctet, ReadString, ReadOctetSeq;
    match v
    case ByReference(s) =>
      q := ReadsOctet(b, p, Tag(v), Put(String(s), rest));
      q := ReadsString(b, q, s, rest);
    case AsXmlString(s) =>
      q := ReadsOctet(b, p, Tag(v), Put(String(s), rest));
      q := ReadsString(b, q, s, rest);
    case InBinary(s) =>
      q := ReadsOctet(b, p, Tag(v), Put(OctetSeq(s), rest));
      q := ReadsOctetSeq(b, q, s, rest);
    case Bare(_) =>
      q := ReadsOctet(b, p, Tag(v), rest);
  }
}
