/** XRCE messages byte by byte: where each field of a message stands and how it is stored, written out
    without the printer's items. Every lemma holds of any buffer that holds what the printer put. */
module WireFormats {
  import opened Words
  import opened XrceIds
  import opened Cdr
  import opened XrceTypes
  import opened XrcePayloads
  import opened Messages

  // ---------------------------------------------------------------- single values

  // The next multiple of four.
  function Up4(p: nat): nat {
    (p + 3) / 4 * 4
  }

  function Up2(p: nat): nat {
    (p + 1) / 2 * 2
  }

  predicate ShortIs(b: Bytes, p: nat, x: u16) {
    p + 2 <= |b| && b[p] == x % 256 && b[p + 1] == x / 256
  }

  predicate LongIs(b: Bytes, p: nat, x: u32) {
    && p + 4 <= |b|
    && b[p] == x % 256
    && b[p + 1] == x / 256 % 256
    && b[p + 2] == x / 65536 % 256
    && b[p + 3] == x / 16777216
  }

  predicate BytesAre(b: Bytes, p: nat, s: Bytes) {
    p + |s| <= |b| && b[p..p + |s|] == s
  }

  // A string is preceded by its length with the terminating zero.
  predicate StringIs(b: Bytes, p: nat, s: Bytes) {
    LongIs(b, Up4(p), (|s| + 1) % 0x1_0000_0000) && BytesAre(b, Up4(p) + 4, s)
    && Up4(p) + 4 + |s| < |b| && b[Up4(p) + 4 + |s|] == 0
  }

  predicate OctetsAre(b: Bytes, p: nat, s: Bytes) {
    LongIs(b, Up4(p), |s| % 0x1_0000_0000) && BytesAre(b, Up4(p) + 4, s)
  }

  lemma OctetOnWire(b: Bytes, p: nat, x: u8, rest: Items)
    requires Holds(b, p, Put(Octet(x), rest))
    ensures p < |b| && b[p] == x && Holds(b, p + 1, rest)
    ensures End(p, Put(Octet(x), rest)) == End(p + 1, rest)
  {
    Stored(b, p, Octet(x), rest);
    StoredByte(b, p, [x], 0);
  }

  lemma ShortOnWire(b: Bytes, p: nat, x: u16, rest: Items)
    requires Holds(b, p, Put(Short(x), rest))
    ensures ShortIs(b, Up2(p), x) && Holds(b, Up2(p) + 2, rest)
    ensures End(p, Put(Short(x), rest)) == End(Up2(p) + 2, rest)
  {
    UpIsPadding2(p);
    Stored(b, p, Short(x), rest);
    StoredByte(b, Up2(p), ShortBytes(x), 0);
    StoredByte(b, Up2(p), ShortBytes(x), 1);
  }

  lemma UpIsPadding2(p: nat)
    ensures p + Padding(p, 2) == Up2(p)
  {
  }

  lemma LongAt(b: Bytes, p: nat, x: u32)
    requires StoredAt(b, p, LongBytes(x))
    ensures LongIs(b, p, x)
  {
    StoredByte(b, p, LongBytes(x), 0);
    StoredByte(b, p, LongBytes(x), 1);
    StoredByte(b, p, LongBytes(x), 2);
    StoredByte(b, p, LongBytes(x), 3);
  }

  lemma UpIsPadding(p: nat)
    ensures p + Padding(p, 4) == Up4(p)
  {
  }

  lemma LongOnWire(b: Bytes, p: nat, x: u32, rest: Items)
    requires Holds(b, p, Put(Long(x), rest))
    ensures LongIs(b, Up4(p), x) && Holds(b, Up4(p) + 4, rest)
    ensures End(p, Put(Long(x), rest)) == End(Up4(p) + 4, rest)
  {
    UpIsPadding(p);
    Stored(b, p, Long(x), rest);
    LongAt(b, Up4(p), x);
  }

  lemma RawOnWire(b: Bytes, p: nat, s: Bytes, rest: Items)
    requires Holds(b, p, Put(Raw(s), rest))
    ensures BytesAre(b, p, s) && Holds(b, p + |s|, rest)
    ensures End(p, Put(Raw(s), rest)) == End(p + |s|, rest)
  {
    Stored(b, p, Raw(s), rest);
  }

  lemma StringOnWire(b: Bytes, p: nat, s: Bytes, rest: Items)
    requires Holds(b, p, Put(String(s), rest))
    ensures StringIs(b, p, s) && Holds(b, Up4(p) + 5 + |s|, rest)
    ensures End(p, Put(String(s), rest)) == End(Up4(p) + 5 + |s|, rest)
  {
    hide LongBytes, Holds, End, Padding, LongIs;
    UpIsPadding(p);
    Stored(b, p, String(s), rest);
    var at, n := Up4(p), LongBytes(LengthField(|s| + 1));
    StringBody(s);
    assert Body(String(s)) == n + (s + [0]);
    StoredPrefix(b, at, n, s + [0]);
    LongAt(b, at, LengthField(|s| + 1));
    StoredPrefix(b, at + 4, s, [0]);
    StoredByte(b, at + 4 + |s|, [0], 0);
    EndPastString(p, s, rest);
  }

  lemma EndPastString(p: nat, s: Bytes, rest: Items)
    ensures After(p, String(s)) == Up4(p) + 5 + |s|
    ensures End(p, Put(String(s), rest)) == End(Up4(p) + 5 + |s|, rest)
  {
    UpIsPadding(p);
    StringBody(s);
  }

  lemma OctetsOnWire(b: Bytes, p: nat, s: Bytes, rest: Items)
    requires Holds(b, p, Put(OctetSeq(s), rest))
    ensures OctetsAre(b, p, s) && Holds(b, Up4(p) + 4 + |s|, rest)
    ensures End(p, Put(OctetSeq(s), rest)) == End(Up4(p) + 4 + |s|, rest)
  {
    hide LongBytes, Holds, End, Padding, LongIs;
    UpIsPadding(p);
    Stored(b, p, OctetSeq(s), rest);
    var at, n := Up4(p), LongBytes(LengthField(|s|));
    OctetSeqBody(s);
    assert Body(OctetSeq(s)) == n + s;
    StoredPrefix(b, at, n, s);
    LongAt(b, at, LengthField(|s|));
    EndPastOctets(p, s, rest);
  }

  lemma EndPastOctets(p: nat, s: Bytes, rest: Items)
    ensures After(p, OctetSeq(s)) == Up4(p) + 4 + |s|
    ensures End(p, Put(OctetSeq(s), rest)) == End(Up4(p) + 4 + |s|, rest)
  {
    UpIsPadding(p);
    OctetSeqBody(s);
  }

  // ---------------------------------------------------------------- fixed layouts

  /** request_id, object_id. */
  lemma RequestOnWire(b: Bytes, p: nat, v: Request, rest: Items)
    requires Holds(b, p, RequestItems(v, rest))
    ensures BytesAre(b, p, v.requestId) && BytesAre(b, p + 2, v.objectId)
    ensures Holds(b, p + 4, rest) && End(p, RequestItems(v, rest)) == End(p + 4, rest)
  {
    hide Holds, End;
    RawOnWire(b, p, v.requestId, Put(Raw(v.objectId), rest));
    RawOnWire(b, p + 2, v.objectId, rest);
  }

  /** status, implementation_status. */
  lemma ResultStatusOnWire(b: Bytes, p: nat, v: ResultStatus, rest: Items)
    requires Holds(b, p, ResultStatusItems(v, rest))
    ensures p + 1 < |b| && b[p] == v.status && b[p + 1] == v.implementation
    ensures Holds(b, p + 2, rest) && End(p, ResultStatusItems(v, rest)) == End(p + 2, rest)
  {
    hide Holds, End;
    OctetOnWire(b, p, v.status, Put(Octet(v.implementation), rest));
    OctetOnWire(b, p + 1, v.implementation, rest);
  }

  /** first_unacked_seq_num, nack_bitmap, stream_id. */
  lemma AckNackOnWire(b: Bytes, p: nat, v: AckNack, rest: Items)
    requires p % 2 == 0 && Holds(b, p, AckNackItems(v, rest))
    ensures ShortIs(b, p, v.first) && BytesAre(b, p + 2, v.bitmap) && p + 4 < |b| && b[p + 4] == v.stream
    ensures Holds(b, p + 5, rest) && End(p, AckNackItems(v, rest)) == End(p + 5, rest)
  {
    hide Holds, End;
    ShortOnWire(b, p, v.first, Put(Raw(v.bitmap), Put(Octet(v.stream), rest)));
    RawOnWire(b, p + 2, v.bitmap, Put(Octet(v.stream), rest));
    OctetOnWire(b, p + 4, v.stream, rest);
  }

  /** first_unacked_seq_nr, last_unacked_seq_nr, stream_id. */
  lemma HeartbeatOnWire(b: Bytes, p: nat, v: Heartbeat, rest: Items)
    requires p % 2 == 0 && Holds(b, p, HeartbeatItems(v, rest))
    ensures ShortIs(b, p, v.first) && ShortIs(b, p + 2, v.last) && p + 4 < |b| && b[p + 4] == v.stream
    ensures Holds(b, p + 5, rest) && End(p, HeartbeatItems(v, rest)) == End(p + 5, rest)
  {
    hide Holds, End;
    ShortOnWire(b, p, v.first, Put(Short(v.last), Put(Octet(v.stream), rest)));
    ShortOnWire(b, p + 2, v.last, Put(Octet(v.stream), rest));
    OctetOnWire(b, p + 4, v.stream, rest);
  }

  /** seconds, nanoseconds. */
  lemma TimeOnWire(b: Bytes, p: nat, v: Time, rest: Items)
    requires p % 4 == 0 && Holds(b, p, TimeItems(v, rest))
    ensures LongIs(b, p, v.seconds) && LongIs(b, p + 4, v.nanoseconds)
    ensures Holds(b, p + 8, rest) && End(p, TimeItems(v, rest)) == End(p + 8, rest)
  {
    hide Holds, End;
    LongOnWire(b, p, v.seconds, Put(Long(v.nanoseconds), rest));
    LongOnWire(b, p + 4, v.nanoseconds, rest);
  }

  /** max_samples, max_elapsed_time, max_bytes_per_second, min_pace_period. */
  lemma DeliveryControlOnWire(b: Bytes, p: nat, v: DeliveryControl, rest: Items)
    requires Holds(b, p, DeliveryControlItems(v, rest))
    ensures var at := Up2(p);
            && ShortIs(b, at, v.maxSamples) && ShortIs(b, at + 2, v.maxElapsedTime)
            && ShortIs(b, at + 4, v.maxBytesPerSecond) && ShortIs(b, at + 6, v.minPacePeriod)
            && Holds(b, at + 8, rest)
  {
    hide Holds, End;
    var at := Up2(p);
    var k3 := Put(Short(v.minPacePeriod), rest);
    var k2 := Put(Short(v.maxBytesPerSecond), k3);
    ShortOnWire(b, p, v.maxSamples, Put(Short(v.maxElapsedTime), k2));
    ShortOnWire(b, at + 2, v.maxElapsedTime, k2);
    ShortOnWire(b, at + 4, v.maxBytesPerSecond, k3);
    ShortOnWire(b, at + 6, v.minPacePeriod, rest);
  }

  // ---------------------------------------------------------------- properties, clients, agents

  // Names and values, one after the other.
  predicate PropertiesAre(b: Bytes, p: nat, ps: seq<Property>)
    decreases |ps|
  {
    ps != [] ==>
      var q := Up4(p) + 5 + |ps[0].name|;
      && StringIs(b, p, ps[0].name) && StringIs(b, q, ps[0].value)
      && PropertiesAre(b, Up4(q) + 5 + |ps[0].value|, ps[1..])
  }

  lemma {:induction false} PropertiesOnWire(b: Bytes, p: nat, ps: seq<Property>, rest: Items) returns (end: nat)
    requires Holds(b, p, PropertiesItems(ps, rest))
    ensures PropertiesAre(b, p, ps) && Holds(b, end, rest)
    decreases |ps|
  {
    hide Holds, End, StringIs;
    end := p;
    if ps != [] {
      var k := PropertiesItems(ps[1..], rest);
      var q := Up4(p) + 5 + |ps[0].name|;
      StringOnWire(b, p, ps[0].name, Put(String(ps[0].value), k));
      StringOnWire(b, q, ps[0].value, k);
      end := PropertiesOnWire(b, Up4(q) + 5 + |ps[0].value|, ps[1..], rest);
    }
  }

  // A flag, and behind a set one the number of properties and the properties.
  predicate OptionalPropertiesAre(b: Bytes, p: nat, ps: PropertySeq) {
    && p < |b| && b[p] == (if ps.Some? then 1 else 0)
    && (ps.Some? ==>
          LongIs(b, Up4(p + 1), |ps.value| % 0x1_0000_0000) && PropertiesAre(b, Up4(p + 1) + 4, ps.value))
  }

  lemma OptionalPropertiesOnWire(b: Bytes, p: nat, ps: PropertySeq, rest: Items) returns (end: nat)
    requires Holds(b, p, OptionalPropertiesItems(ps, rest))
    ensures OptionalPropertiesAre(b, p, ps) && Holds(b, end, rest)
    ensures ps.None? ==> end == p + 1
  {
    hide Holds, End, LongIs, PropertiesAre, PropertiesItems;
    end := p + 1;
    if ps.Some? {
      var k := PropertiesItems(ps.value, rest);
      OctetOnWire(b, p, 1, Put(Long(LengthField(|ps.value|)), k));
      LongOnWire(b, p + 1, LengthField(|ps.value|), k);
      end := PropertiesOnWire(b, Up4(p + 1) + 4, ps.value, rest);
    } else {
      OctetOnWire(b, p, 0, rest);
    }
  }

  /** xrce_cookie, xrce_version, xrce_vendor_id, client_key, session_id, properties, mtu. */
  lemma ClientOnWire(b: Bytes, p: nat, v: ClientRep, rest: Items) returns (end: nat)
    requires Holds(b, p, ClientRepItems(v, rest))
    ensures BytesAre(b, p, v.cookie) && BytesAre(b, p + 4, v.version) && BytesAre(b, p + 6, v.vendor)
    ensures BytesAre(b, p + 8, v.key) && p + 12 < |b| && b[p + 12] == v.session
    ensures OptionalPropertiesAre(b, p + 13, v.properties)
    ensures 2 <= end && ShortIs(b, end - 2, v.mtu) && Holds(b, end, rest)
    ensures v.properties.None? ==> end == Up2(p + 14) + 2
  {
    hide Holds, End, OptionalPropertiesItems, OptionalPropertiesAre;
    var k5 := OptionalPropertiesItems(v.properties, Put(Short(v.mtu), rest));
    var k4 := Put(Octet(v.session), k5);
    var k3 := Put(Raw(v.key), k4);
    var k2 := Put(Raw(v.vendor), k3);
    RawOnWire(b, p, v.cookie, Put(Raw(v.version), k2));
    RawOnWire(b, p + 4, v.version, k2);
    RawOnWire(b, p + 6, v.vendor, k3);
    RawOnWire(b, p + 8, v.key, k4);
    OctetOnWire(b, p + 12, v.session, k5);
    var q := OptionalPropertiesOnWire(b, p + 13, v.properties, Put(Short(v.mtu), rest));
    ShortOnWire(b, q, v.mtu, rest);
    end := Up2(q) + 2;
  }

  /** xrce_cookie, xrce_version, xrce_vendor_id, properties. */
  lemma AgentOnWire(b: Bytes, p: nat, v: AgentRep, rest: Items) returns (end: nat)
    requires Holds(b, p, AgentRepItems(v, rest))
    ensures BytesAre(b, p, v.cookie) && BytesAre(b, p + 4, v.version) && BytesAre(b, p + 6, v.vendor)
    ensures OptionalPropertiesAre(b, p + 8, v.properties) && Holds(b, end, rest)
    ensures v.properties.None? ==> end == p + 9
  {
    hide Holds, End, OptionalPropertiesItems, OptionalPropertiesAre;
    var k3 := OptionalPropertiesItems(v.properties, rest);
    var k2 := Put(Raw(v.vendor), k3);
    RawOnWire(b, p, v.cookie, Put(Raw(v.version), k2));
    RawOnWire(b, p + 4, v.version, k2);
    RawOnWire(b, p + 6, v.vendor, k3);
    end := OptionalPropertiesOnWire(b, p + 8, v.properties, rest);
  }

  // ---------------------------------------------------------------- object representations

  // The format, 1 for a reference, 2 for XML, 3 for binary, and the string or octets.
  predicate RepresentationIs(b: Bytes, p: nat, v: Representation) {
    && p < |b|
    && match v
       case ByReference(s) => b[p] == 1 && StringIs(b, p + 1, s)
       case AsXmlString(s) => b[p] == 2 && StringIs(b, p + 1, s)
       case InBinary(s) => b[p] == 3 && OctetsAre(b, p + 1, s)
       case Bare(tag) => b[p] == tag
  }

  lemma RepresentationOnWire(b: Bytes, p: nat, v: Representation, rest: Items) returns (end: nat)
    requires Holds(b, p, RepresentationItems(v, rest))
    ensures RepresentationIs(b, p, v) && Holds(b, end, rest)
    ensures end == match v
      case ByReference(s) => Up4(p + 1) + 5 + |s|
      case AsXmlString(s) => Up4(p + 1) + 5 + |s|
      case InBinary(s) => Up4(p + 1) + 4 + |s|
      case Bare(_) => p + 1
  {
    hide Holds, End, StringIs, OctetsAre;
    match v
    case ByReference(s) =>
      OctetOnWire(b, p, 1, Put(String(s), rest));
      StringOnWire(b, p + 1, s, rest);
      end := Up4(p + 1) + 5 + |s|;
    case AsXmlString(s) =>
      OctetOnWire(b, p, 2, Put(String(s), rest));
      StringOnWire(b, p + 1, s, rest);
      end := Up4(p + 1) + 5 + |s|;
    case InBinary(s) =>
      OctetOnWire(b, p, 3, Put(OctetSeq(s), rest));
      OctetsOnWire(b, p + 1, s, rest);
      end := Up4(p + 1) + 4 + |s|;
    case Bare(tag) =>
      OctetOnWire(b, p, tag, rest);
      end := p + 1;
  }

  /** Which kinds have which representation, and which formats each knows: an object of any other combination
      has no place in a message. */
  lemma KindsAndFormats(v: ObjectVariant)
    requires VariantWellFormed(v)
    ensures match v
      case AgentObject(_) => Kind(v) == 0x0D
      case ClientObject(_) => Kind(v) == 0x0E
      case ParticipantObject(r, _) => Kind(v) == 0x01 && (r.Bare? ==> r.tag !in {1, 2, 3})
      case NamedObject(kind, r) =>
        && kind == Kind(v) && kind in {0x0A, 0x0B, 0x0C}
        && !r.InBinary? && (r.Bare? ==> r.tag !in {1, 2})
      case GroupObject(kind, r, _) =>
        && kind == Kind(v) && kind in {0x03, 0x04}
        && !r.ByReference? && (r.Bare? ==> r.tag !in {2, 3})
      case ChildObject(kind, r, _) =>
        && kind == Kind(v) && kind in {0x02, 0x05, 0x06, 0x07, 0x08}
        && (r.Bare? ==> r.tag !in {1, 2, 3})
      case BareObject(kind) =>
        kind == Kind(v) && kind !in {0x01, 0x02, 0x03, 0x04, 0x05, 0x06, 0x07, 0x08, 0x0A, 0x0B, 0x0C, 0x0D, 0x0E}
  {
  }

  /** kind, and the representation; behind it the domain of a participant, or the parent of an object. */
  lemma VariantOnWire(b: Bytes, p: nat, v: ObjectVariant, rest: Items) returns (end: nat)
    requires Holds(b, p, VariantItems(v, rest))
    ensures p < |b| && b[p] == Kind(v) && Holds(b, end, rest)
    ensures match v
      case AgentObject(agent) => BytesAre(b, p + 1, agent.cookie) && BytesAre(b, p + 7, agent.vendor)
      case ClientObject(client) => BytesAre(b, p + 1, client.cookie) && BytesAre(b, p + 9, client.key)
      case ParticipantObject(r, domain) =>
        RepresentationIs(b, p + 1, r) && 2 <= end && end % 2 == 0 && ShortIs(b, end - 2, domain)
      case NamedObject(_, r) => RepresentationIs(b, p + 1, r)
      case GroupObject(_, r, parent) => RepresentationIs(b, p + 1, r) && 2 <= end && BytesAre(b, end - 2, parent)
      case ChildObject(_, r, parent) => RepresentationIs(b, p + 1, r) && 2 <= end && BytesAre(b, end - 2, parent)
      case BareObject(_) => end == p + 1
  {
    hide Holds, End, RepresentationItems, RepresentationIs, AgentRepItems, ClientRepItems, BytesAre, ShortIs;
    hide OptionalPropertiesAre, Up4;
    OctetOnWire(b, p, Kind(v), VariantBody(v, rest));
    end := p + 1;
    match v
    case AgentObject(agent) => end := AgentOnWire(b, p + 1, agent, rest);
    case ClientObject(client) => end := ClientOnWire(b, p + 1, client, rest);
    case ParticipantObject(r, domain) =>
      var q := RepresentationOnWire(b, p + 1, r, Put(Short(domain), rest));
      ShortOnWire(b, q, domain, rest);
      end := Up2(q) + 2;
    case NamedObject(_, r) => end := RepresentationOnWire(b, p + 1, r, rest);
    case GroupObject(_, r, parent) => end := ParentedOnWire(b, p + 1, r, parent, rest);
    case ChildObject(_, r, parent) => end := ParentedOnWire(b, p + 1, r, parent, rest);
    case BareObject(_) =>
  }

  lemma ParentedOnWire(b: Bytes, p: nat, r: Representation, parent: Pair, rest: Items) returns (end: nat)
    requires Holds(b, p, RepresentationItems(r, Put(Raw(parent), rest)))
    ensures RepresentationIs(b, p, r) && 2 <= end && BytesAre(b, end - 2, parent) && Holds(b, end, rest)
  {
    hide Holds, End, RepresentationItems, RepresentationIs;
    end := RepresentationOnWire(b, p, r, Put(Raw(parent), rest));
    RawOnWire(b, end, parent, rest);
    end := end + 2;
  }

  // ---------------------------------------------------------------- agent activity

  // The format, 0 to 3 from small to string, and the address with its port.
  predicate AddressIs(b: Bytes, p: nat, v: TransportAddress) {
    && p < |b|
    && match v
       case Small(address, port) => b[p] == 0 && BytesAre(b, p + 1, address) && p + 3 < |b| && b[p + 3] == port
       case Medium(address, port) => b[p] == 1 && BytesAre(b, p + 1, address) && ShortIs(b, Up2(p + 5), port)
       case Large(address, port) => b[p] == 2 && BytesAre(b, p + 1, address) && LongIs(b, Up4(p + 17), port)
       case Name(value) => b[p] == 3 && StringIs(b, p + 1, value)
       case NoAddress(format) => b[p] == format
  }

  function PastAddress(p: nat, v: TransportAddress): nat {
    match v
    case Small(_, _) => p + 4
    case Medium(_, _) => Up2(p + 5) + 2
    case Large(_, _) => Up4(p + 17) + 4
    case Name(value) => Up4(p + 1) + 5 + |value|
    case NoAddress(_) => p + 1
  }

  lemma AddressOnWire(b: Bytes, p: nat, v: TransportAddress, rest: Items)
    requires Holds(b, p, AddressItems(v, rest))
    ensures AddressIs(b, p, v) && Holds(b, PastAddress(p, v), rest)
  {
    hide Holds, End, StringIs, LongIs;
    OctetOnWire(b, p, AddressFormat(v), AddressBody(v, rest));
    match v
    case Small(address, port) =>
      RawOnWire(b, p + 1, address, Put(Octet(port), rest));
      OctetOnWire(b, p + 3, port, rest);
    case Medium(address, port) =>
      RawOnWire(b, p + 1, address, Put(Short(port), rest));
      ShortOnWire(b, p + 5, port, rest);
    case Large(address, port) =>
      RawOnWire(b, p + 1, address, Put(Long(port), rest));
      LongOnWire(b, p + 17, port, rest);
    case Name(value) => StringOnWire(b, p + 1, value, rest);
    case NoAddress(_) =>
  }

  predicate AddressesAre(b: Bytes, p: nat, vs: seq<TransportAddress>)
    decreases |vs|
  {
    vs != [] ==> AddressIs(b, p, vs[0]) && AddressesAre(b, PastAddress(p, vs[0]), vs[1..])
  }

  lemma {:induction false} AddressesOnWire(b: Bytes, p: nat, vs: seq<TransportAddress>, rest: Items)
    returns (end: nat)
    requires Holds(b, p, AddressesItems(vs, rest))
    ensures AddressesAre(b, p, vs) && Holds(b, end, rest)
    decreases |vs|
  {
    hide Holds, End, AddressIs, AddressItems, PastAddress;
    end := p;
    if vs != [] {
      AddressOnWire(b, p, vs[0], AddressesItems(vs[1..], rest));
      end := AddressesOnWire(b, PastAddress(p, vs[0]), vs[1..], rest);
    }
  }

  /** availability, the number of addresses, the addresses. */
  lemma AgentActivityOnWire(b: Bytes, p: nat, v: AgentActivity, rest: Items) returns (end: nat)
    requires Holds(b, p, AgentActivityItems(v, rest))
    ensures ShortIs(b, Up2(p), v.availability)
    ensures LongIs(b, Up4(Up2(p) + 2), |v.addresses| % 0x1_0000_0000)
    ensures AddressesAre(b, Up4(Up2(p) + 2) + 4, v.addresses) && Holds(b, end, rest)
  {
    hide Holds, End, AddressesItems, AddressesAre, LongIs;
    var k := AddressesItems(v.addresses, rest);
    ShortOnWire(b, p, v.availability, Put(Long(LengthField(|v.addresses|)), k));
    LongOnWire(b, Up2(p) + 2, LengthField(|v.addresses|), k);
    end := AddressesOnWire(b, Up4(Up2(p) + 2) + 4, v.addresses, rest);
  }

  /** A flag and the configuration, a flag and the activity, which for an agent begins with its kind. */
  lemma InfoOnWire(b: Bytes, p: nat, v: ObjectInfo, rest: Items) returns (mid: nat, end: nat)
    requires Holds(b, p, InfoItems(v, rest))
    ensures p < |b| && b[p] == (if v.config.Some? then 1 else 0)
    ensures v.config.Some? ==> p + 1 < |b| && b[p + 1] == Kind(v.config.value)
    ensures v.config.None? ==> mid == p + 1
    ensures mid < |b| && b[mid] == (if v.activity.Some? then 1 else 0)
    ensures v.activity.Some? ==>
              mid + 1 < |b| && b[mid + 1] == if v.activity.value.ActivityOfAgent? then 0x0D else v.activity.value.kind
    ensures v.activity.Some? && v.activity.value.ActivityOfAgent? ==>
              ShortIs(b, Up2(mid + 2), v.activity.value.activity.availability)
    ensures Holds(b, end, rest)
  {
    hide Holds, End, VariantItems, AgentActivityItems, AddressesAre, ShortIs, LongIs, Up2, Up4;
    var k := InfoActivityItems(v, rest);
    mid := p + 1;
    if v.config.Some? {
      OctetOnWire(b, p, 1, VariantItems(v.config.value, k));
      mid := VariantOnWire(b, p + 1, v.config.value, k);
    } else {
      OctetOnWire(b, p, 0, k);
    }
    end := mid + 1;
    if v.activity.None? {
      OctetOnWire(b, mid, 0, rest);
    } else {
      OctetOnWire(b, mid, 1, ActivityItems(v.activity.value, rest));
      match v.activity.value
      case ActivityOfAgent(activity) =>
        OctetOnWire(b, mid + 1, 0x0D, AgentActivityItems(activity, rest));
        end := AgentActivityOnWire(b, mid + 2, activity, rest);
      case NoActivity(kind) =>
        OctetOnWire(b, mid + 1, kind, rest);
        end := mid + 2;
    }
  }

  /** preferred_stream_id, data_format, a flag and the filter, a flag and the delivery control. */
  lemma SpecOnWire(b: Bytes, p: nat, v: ReadSpecification, rest: Items) returns (mid: nat, end: nat)
    requires Holds(b, p, SpecItems(v, rest))
    ensures p + 2 < |b| && b[p] == v.stream && b[p + 1] == v.format && b[p + 2] == (if v.filter.Some? then 1 else 0)
    ensures if v.filter.Some? then StringIs(b, p + 3, v.filter.value) && mid == Up4(p + 3) + 5 + |v.filter.value|
            else mid == p + 3
    ensures mid < |b| && b[mid] == (if v.control.Some? then 1 else 0)
    ensures v.control.Some? ==>
              var at := Up2(mid + 1);
              && ShortIs(b, at, v.control.value.maxSamples) && ShortIs(b, at + 2, v.control.value.maxElapsedTime)
              && ShortIs(b, at + 4, v.control.value.maxBytesPerSecond)
              && ShortIs(b, at + 6, v.control.value.minPacePeriod)
    ensures Holds(b, end, rest)
  {
    hide Holds, End, DeliveryControlItems, StringIs, ShortIs, Up2, Up4;
    var k := SpecControlItems(v, rest);
    OctetOnWire(b, p, v.stream, Put(Octet(v.format), SpecFilterItems(v, rest)));
    OctetOnWire(b, p + 1, v.format, SpecFilterItems(v, rest));
    mid := p + 3;
    if v.filter.Some? {
      OctetOnWire(b, p + 2, 1, Put(String(v.filter.value), k));
      StringOnWire(b, p + 3, v.filter.value, k);
      mid := Up4(p + 3) + 5 + |v.filter.value|;
    } else {
      OctetOnWire(b, p + 2, 0, k);
    }
    end := mid + 1;
    if v.control.Some? {
      OctetOnWire(b, mid, 1, DeliveryControlItems(v.control.value, rest));
      DeliveryControlOnWire(b, mid + 1, v.control.value, rest);
      end := Up2(mid + 1) + 8;
    } else {
      OctetOnWire(b, mid, 0, rest);
    }
  }

  // ---------------------------------------------------------------- payloads and messages

  // Where the parts of a payload stand.
  predicate PayloadIs(b: Bytes, p: nat, v: Payload) {
    match v
    case CreateClient(client) =>
      BytesAre(b, p, client.cookie) && BytesAre(b, p + 8, client.key) && p + 12 < |b| && b[p + 12] == client.session
    case Create(request, o) => RequestIs(b, p, request) && p + 4 < |b| && b[p + 4] == Kind(o)
    case GetInfo(request, mask) => RequestIs(b, p, request) && LongIs(b, p + 4, mask)
    case Delete(request) => RequestIs(b, p, request)
    case StatusAgent(result, agent) => ResultIs(b, p, result) && BytesAre(b, p + 2, agent.cookie)
    case Status(request, result) => RequestIs(b, p, request) && ResultIs(b, p + 4, result)
    case Info(request, result, info) =>
      && RequestIs(b, p, request) && ResultIs(b, p + 4, result)
      && p + 6 < |b| && b[p + 6] == if info.config.Some? then 1 else 0
    case Data(request, data) => RequestIs(b, p, request) && BytesAre(b, p + 4, data)
    case ReadData(request, spec) =>
      RequestIs(b, p, request) && p + 5 < |b| && b[p + 4] == spec.stream && b[p + 5] == spec.format
    case Acknack(w) =>
      ShortIs(b, p, w.first) && BytesAre(b, p + 2, w.bitmap) && p + 4 < |b| && b[p + 4] == w.stream
    case Beat(w) => ShortIs(b, p, w.first) && ShortIs(b, p + 2, w.last) && p + 4 < |b| && b[p + 4] == w.stream
    case Timestamp(t) => TimeIs(b, p, t)
    case TimestampReply(t, r, o) => TimeIs(b, p, t) && TimeIs(b, p + 8, r) && TimeIs(b, p + 16, o)
  }

  /** Every payload stands field by field where PayloadIs says. */
  lemma PayloadOnWire(b: Bytes, p: nat, v: Payload, rest: Items)
    requires p % 4 == 0 && Holds(b, p, PayloadItems(v, rest))
    ensures PayloadIs(b, p, v)
  {
    match v
    case CreateClient(_) => ClientPayloadOnWire(b, p, v, rest);
    case StatusAgent(_, _) => ClientPayloadOnWire(b, p, v, rest);
    case Acknack(w) => AckNackOnWire(b, p, w, rest);
    case Beat(w) => HeartbeatOnWire(b, p, w, rest);
    case Timestamp(_) => TimePayloadOnWire(b, p, v, rest);
    case TimestampReply(_, _, _) => TimePayloadOnWire(b, p, v, rest);
    case _ => RequestPayloadOnWire(b, p, v, rest);
  }

  lemma ClientPayloadOnWire(b: Bytes, p: nat, v: Payload, rest: Items)
    requires (v.CreateClient? || v.StatusAgent?) && Holds(b, p, PayloadItems(v, rest))
    ensures PayloadIs(b, p, v)
  {
    hide Holds, End, ResultStatusItems, AgentRepItems, ClientRepItems, BytesAre, ShortIs, OptionalPropertiesAre;
    match v
    case CreateClient(client) => var end := ClientOnWire(b, p, client, rest);
    case StatusAgent(result, agent) =>
      ResultStatusOnWire(b, p, result, AgentRepItems(agent, rest));
      var end := AgentOnWire(b, p + 2, agent, rest);
  }

  lemma TimePayloadOnWire(b: Bytes, p: nat, v: Payload, rest: Items)
    requires p % 4 == 0 && (v.Timestamp? || v.TimestampReply?) && Holds(b, p, PayloadItems(v, rest))
    ensures PayloadIs(b, p, v)
  {
    hide Holds, End, TimeItems, LongIs;
    match v
    case Timestamp(t) => TimeOnWire(b, p, t, rest);
    case TimestampReply(t, r, o) =>
      TimeOnWire(b, p, t, TimeItems(r, TimeItems(o, rest)));
      TimeOnWire(b, p + 8, r, TimeItems(o, rest));
      TimeOnWire(b, p + 16, o, rest);
  }

  lemma RequestPayloadOnWire(b: Bytes, p: nat, v: Payload, rest: Items)
    requires v.Create? || v.GetInfo? || v.Delete? || v.Status? || v.Info? || v.Data? || v.ReadData?
    requires p % 4 == 0 && Holds(b, p, PayloadItems(v, rest))
    ensures PayloadIs(b, p, v)
  {
    hide Holds, End, RequestItems, ResultStatusItems, VariantItems, InfoItems, SpecItems;
    hide LongIs, ShortIs, BytesAre, RepresentationIs, StringIs, Kind;
    match v
    case Create(request, o) =>
      RequestOnWire(b, p, request, VariantItems(o, rest));
      var end := VariantOnWire(b, p + 4, o, rest);
    case GetInfo(request, mask) =>
      RequestOnWire(b, p, request, Put(Long(mask), rest));
      LongOnWire(b, p + 4, mask, rest);
    case Delete(request) => RequestOnWire(b, p, request, rest);
    case Status(request, result) =>
      RequestOnWire(b, p, request, ResultStatusItems(result, rest));
      ResultStatusOnWire(b, p + 4, result, rest);
    case Info(request, result, info) =>
      RequestOnWire(b, p, request, ResultStatusItems(result, InfoItems(info, rest)));
      ResultStatusOnWire(b, p + 4, result, InfoItems(info, rest));
      var mid, end := InfoOnWire(b, p + 6, info, rest);
    case Data(request, data) =>
      RequestOnWire(b, p, request, Put(Raw(data), rest));
      RawOnWire(b, p + 4, data, rest);
    case ReadData(request, spec) =>
      RequestOnWire(b, p, request, SpecItems(spec, rest));
      var mid, end := SpecOnWire(b, p + 4, spec, rest);
  }

  predicate RequestIs(b: Bytes, p: nat, v: Request) {
    BytesAre(b, p, v.requestId) && BytesAre(b, p + 2, v.objectId)
  }

  predicate ResultIs(b: Bytes, p: nat, v: ResultStatus) {
    p + 1 < |b| && b[p] == v.status && b[p + 1] == v.implementation
  }

  predicate TimeIs(b: Bytes, p: nat, v: Time) {
    LongIs(b, p, v.seconds) && LongIs(b, p + 4, v.nanoseconds)
  }

  /** session_id, stream_id, sequence_nr, and the client key if the session id is below 128. */
  lemma HeaderOnWire(b: Bytes, h: Header)
    requires Holds(b, 0, HeaderItems(h))
    ensures 2 <= |b| && b[0] == h.session && b[1] == h.stream && ShortIs(b, 2, h.sequence)
    ensures h.session < 128 ==> BytesAre(b, 4, h.key)
    ensures End(0, HeaderItems(h)) == if h.session < 128 then 8 else 4
  {
    hide Holds, End;
    var k3 := if CarriesKey(h) then Put(Raw(h.key), Done) else Done;
    OctetOnWire(b, 0, h.session, Put(Octet(h.stream), Put(Short(h.sequence), k3)));
    OctetOnWire(b, 1, h.stream, Put(Short(h.sequence), k3));
    ShortOnWire(b, 2, h.sequence, k3);
    if CarriesKey(h) {
      RawOnWire(b, 4, h.key, Done);
      EndOfDone(8);
    } else {
      EndOfDone(4);
    }
  }

  /** At the next multiple of four: submessage_id, flags, submessage_length, and the payload. */
  lemma SubmessageOnWire(b: Bytes, p: nat, s: Submessage)
    requires Holds(b, p, SubmessageItems(s))
    ensures var at := Up4(p);
            && at + 1 < |b| && b[at] == s.id && b[at + 1] == s.flags
            && ShortIs(b, at + 2, PayloadSize(s.payload, 0) % 65536)
            && Holds(b, at + 4, PayloadItems(s.payload, Done))
            && End(p, SubmessageItems(s)) == End(at + 4, PayloadItems(s.payload, Done))
  {
    hide PayloadItems, PayloadSize, Padding;
    var at, sub, k := Up4(p), SubHeaderOf(s), PayloadItems(s.payload, Done);
    UpIsPadding(p);
    Stored(b, p, Jump4, SubHeaderItems(sub, k));
    SubHeaderOnWire(b, at, sub, k);
  }

  lemma SubHeaderOnWire(b: Bytes, at: nat, sub: SubHeader, k: Items)
    requires at % 4 == 0 && Holds(b, at, SubHeaderItems(sub, k))
    ensures at + 1 < |b| && b[at] == sub.id && b[at + 1] == sub.flags && ShortIs(b, at + 2, sub.length)
    ensures Holds(b, at + 4, k) && End(at, SubHeaderItems(sub, k)) == End(at + 4, k)
  {
    hide Holds, End;
    OctetOnWire(b, at, sub.id, Put(Octet(sub.flags), Put(Short(sub.length), k)));
    OctetOnWire(b, at + 1, sub.flags, Put(Short(sub.length), k));
    ShortOnWire(b, at + 2, sub.length, k);
  }

  /** The replies the processor builds carry their submessage ids, little-endian flags, and the agent's
      representation: the XRCE cookie, version 1.0, eProsima's vendor id, no properties; an agent is always
      available. */
  lemma RepliesAre(r: Reply)
    ensures var s := ReplySubmessage(r);
            && s.flags == 0x01
            && s.id == match r
               case AcknackReply(_) => 0x0A
               case StatusAgentReply(_) => 0x04
               case StatusReply(_, _) => 0x05
               case InfoReply(_, _, _) => 0x06
               case HeartbeatReply(_) => 0x0B
    ensures var agent := AgentRep([0x58, 0x52, 0x43, 0x45], [0x01, 0x00], [0x01, 0x0F], None);
            ReplySubmessage(r).payload == match r
              case AcknackReply(v) => Acknack(v)
              case StatusAgentReply(result) => StatusAgent(result, agent)
              case StatusReply(request, result) => Status(request, result)
              case InfoReply(request, result, addresses) =>
                Info(request, result,
                     ObjectInfo(Some(AgentObject(agent)), Some(ActivityOfAgent(AgentActivity(1, addresses)))))
              case HeartbeatReply(v) => Beat(v)
  {
  }

  // ---------------------------------------------------------------- what is not a message

  /** A header is parsed iff its four bytes are there, and four more when its session id is below 128. */
  lemma HeaderParsesIff(b: Buffer)
    ensures ReadHeader(b, 0).Ok? <==> |b| >= 4 && (b[0] < 128 ==> |b| >= 8)
  {
  }

  /** Another submessage is found iff four bytes are left at the next multiple of four. */
  lemma SubmessageParsesIff(b: Buffer, p: nat)
    ensures ReadNext(b, p).Ok? <==> Up4(p) + 4 <= |b|
    ensures ReadNext(b, p).Ok? ==>
              && ReadNext(b, p).pos == Up4(p) + 4
              && ReadNext(b, p).value.id == b[Up4(p)] && ReadNext(b, p).value.flags == b[Up4(p) + 1]
              && ReadNext(b, p).value.length == (b[Up4(p) + 2] as int) + 256 * (b[Up4(p) + 3] as int)
  {
    UpIsPadding(p);
  }

  /** A flag is 0 or 1; anything else is no flag. */
  lemma FlagParsesIff(b: Buffer, p: nat)
    ensures ReadBool(b, p).Ok? <==> p < |b| && b[p] in {0, 1}
    ensures ReadBool(b, p).Ok? ==> ReadBool(b, p).value == (b[p] == 1)
    ensures ReadBool(b, p).BadParam? <==> p < |b| && b[p] !in {0, 1}
  {
  }

  /** A string is parsed iff as many bytes follow as its length says; a last zero is not part of it, and the
      others are, whatever they are. */
  lemma StringParsesIff(b: Buffer, p: nat)
    ensures var at := Up4(p) + 4;
            && (ReadString(b, p).Ok? <==> at <= |b| && at + LengthAt(b, Up4(p)) <= |b|)
            && (ReadString(b, p).Ok? ==>
                  && var n := LengthAt(b, Up4(p));
                     && ReadString(b, p).pos == at + n
                     && ReadString(b, p).value
                        == (if n > 0 && b[at + n - 1] == 0 then b[at..at + n - 1] else b[at..at + n]))
  {
    UpIsPadding(p);
    var at := Up4(p) + 4;
    if at <= |b| && at + LengthAt(b, Up4(p)) <= |b| {
      var n := LengthAt(b, Up4(p));
      if n > 0 {
        assert b[at..at + n][n - 1] == b[at + n - 1];
        assert b[at..at + n][..n - 1] == b[at..at + n - 1];
      }
    }
  }

  function LengthAt(b: Bytes, p: nat): nat
    requires p + 4 <= |b|
  {
    (b[p] as int) + 256 * (b[p + 1] as int) + 65536 * (b[p + 2] as int) + 16777216 * (b[p + 3] as int)
  }

  /** Payloads of fixed layout are parsed iff all their bytes are there; so are the time payloads (TimesParseIff),
      and raw data iff the submessage length says four bytes or more and as many are there (DataParsesIff). */
  lemma FixedPayloadParsesIff(b: Buffer, p: nat, length: u16)
    requires p % 4 == 0
    ensures ReadPayload(b, p, TDelete, length).Ok? <==> p + 4 <= |b|
    ensures ReadPayload(b, p, TGetInfo, length).Ok? <==> p + 8 <= |b|
    ensures ReadPayload(b, p, TStatus, length).Ok? <==> p + 6 <= |b|
    ensures ReadPayload(b, p, TAcknack, length).Ok? <==> p + 5 <= |b|
    ensures ReadPayload(b, p, TBeat, length).Ok? <==> p + 5 <= |b|
  {
    hide ReadRequest, ReadLong, ReadAckNack, ReadHeartbeat;
    RequestParsesIff(b, p);
    LongParsesIff(b, p + 4);
    ControlParsesIff(b, p);
  }

  lemma ControlParsesIff(b: Buffer, p: nat)
    requires p % 2 == 0
    ensures ReadAckNack(b, p).Ok? <==> p + 5 <= |b|
    ensures ReadHeartbeat(b, p).Ok? <==> p + 5 <= |b|
  {
    hide ReadShort;
    ShortParsesIff(b, p);
    ShortParsesIff(b, p + 2);
  }

  lemma TimesParseIff(b: Buffer, p: nat, length: u16)
    requires p % 4 == 0
    ensures ReadPayload(b, p, TTimestamp, length).Ok? <==> p + 8 <= |b|
    ensures ReadPayload(b, p, TTimestampReply, length).Ok? <==> p + 24 <= |b|
  {
    hide ReadTime;
    TimeParsesIff(b, p);
    TimeParsesIff(b, p + 8);
    TimeParsesIff(b, p + 16);
  }

  lemma DataParsesIff(b: Buffer, p: nat, length: u16)
    ensures ReadPayload(b, p, TData, length).Ok? <==> length >= 4 && p + length <= |b|
  {
    hide ReadRequest;
    RequestParsesIff(b, p);
  }

  lemma ShortParsesIff(b: Buffer, p: nat)
    requires p % 2 == 0
    ensures ReadShort(b, p).Ok? <==> p + 2 <= |b|
    ensures ReadShort(b, p).Ok? ==> ReadShort(b, p).pos == p + 2
  {
  }

  lemma LongParsesIff(b: Buffer, p: nat)
    requires p % 4 == 0
    ensures ReadLong(b, p).Ok? <==> p + 4 <= |b|
    ensures ReadLong(b, p).Ok? ==> ReadLong(b, p).pos == p + 4
  {
  }

  lemma RequestParsesIff(b: Buffer, p: nat)
    ensures ReadRequest(b, p).Ok? <==> p + 4 <= |b|
    ensures ReadRequest(b, p).Ok? ==> ReadRequest(b, p).pos == p + 4
  {
  }

  lemma TimeParsesIff(b: Buffer, p: nat)
    requires p % 4 == 0
    ensures ReadTime(b, p).Ok? <==> p + 8 <= |b|
    ensures ReadTime(b, p).Ok? ==> ReadTime(b, p).pos == p + 8
  {
    hide ReadLong;
    LongParsesIff(b, p);
    LongParsesIff(b, p + 4);
  }
}
