/** The unions and payloads built from the XRCE types, each with its size, its items and its parser. */
module XrcePayloads {
  import opened Words
  import opened XrceIds
  import opened Cdr
  import opened XrceTypes

  // ---------------------------------------------------------------- object representations

  /** ObjectVariant, its kinds grouped by the shape of their representation. The 16-bit patterns of a
      domain id stand for the signed number. */
  datatype ObjectVariant =
    | AgentObject(agent: AgentRep)
    | ClientObject(client: ClientRep)
    | ParticipantObject(representation: Representation, domain: u16)
    | NamedObject(kind: u8, representation: Representation)
    | GroupObject(kind: u8, representation: Representation, parent: Pair)
    | ChildObject(kind: u8, representation: Representation, parent: Pair)
    | BareObject(kind: u8)

  predicate IsNamed(kind: u8) {
    kind in {OBJK_TYPE, OBJK_QOSPROFILE, OBJK_APPLICATION}
  }

  predicate IsGroup(kind: u8) {
    kind in {OBJK_PUBLISHER, OBJK_SUBSCRIBER}
  }

  predicate IsChild(kind: u8) {
    kind in {OBJK_TOPIC, OBJK_DATAWRITER, OBJK_DATAREADER, OBJK_REQUESTER, OBJK_REPLIER}
  }

  predicate IsBare(kind: u8) {
    !IsNamed(kind) && !IsGroup(kind) && !IsChild(kind) && kind !in {OBJK_AGENT, OBJK_CLIENT, OBJK_PARTICIPANT}
  }

  function Kind(v: ObjectVariant): u8 {
    match v
    case AgentObject(_) => OBJK_AGENT
    case ClientObject(_) => OBJK_CLIENT
    case ParticipantObject(_, _) => OBJK_PARTICIPANT
    case NamedObject(kind, _) => kind
    case GroupObject(kind, _, _) => kind
    case ChildObject(kind, _, _) => kind
    case BareObject(kind) => kind
  }

  // The discriminators agree with the members.
  predicate VariantWellFormed(v: ObjectVariant) {
    match v
    case AgentObject(_) => true
    case ClientObject(_) => true
    case ParticipantObject(r, _) => InFormats(THREE_FORMATS, r)
    case NamedObject(kind, r) => IsNamed(kind) && InFormats(REF_AND_XML, r)
    case GroupObject(kind, r, _) => IsGroup(kind) && InFormats(BIN_AND_XML, r)
    case ChildObject(kind, r, _) => IsChild(kind) && InFormats(THREE_FORMATS, r)
    case BareObject(kind) => IsBare(kind)
  }

  // Where the size computation tracks the printer: no properties, and no client at an odd offset.
  predicate VariantTracked(v: ObjectVariant, a: nat) {
    match v
    case AgentObject(agent) => agent.properties.None?
    case ClientObject(client) => client.properties.None? && a % 2 == 1
    case _ => true
  }

  function VariantBody(v: ObjectVariant, rest: Items): Items {
    match v
    case AgentObject(agent) => AgentRepItems(agent, rest)
    case ClientObject(client) => ClientRepItems(client, rest)
    case ParticipantObject(r, domain) => RepresentationItems(r, Put(Short(domain), rest))
    case NamedObject(_, r) => RepresentationItems(r, rest)
    case GroupObject(_, r, parent) => RepresentationItems(r, Put(Raw(parent), rest))
    case ChildObject(_, r, parent) => RepresentationItems(r, Put(Raw(parent), rest))
    case BareObject(_) => rest
  }

  function VariantItems(v: ObjectVariant, rest: Items): Items {
    Put(Octet(Kind(v)), VariantBody(v, rest))
  }

  function VariantSize(v: ObjectVariant, a: nat): nat {
    var c1 := Grow(a, 1, 1);
    var c2 := match v
      case AgentObject(agent) => c1 + AgentRepSize(agent, c1)
      case ClientObject(client) => c1 + ClientRepSize(client, c1)
      case ParticipantObject(r, _) => Grow(c1 + RepresentationSize(r, c1), 2, 2)
      case NamedObject(_, r) => c1 + RepresentationSize(r, c1)
      case GroupObject(_, r, _) => Grow(c1 + RepresentationSize(r, c1), 1, 2)
      case ChildObject(_, r, _) => Grow(c1 + RepresentationSize(r, c1), 1, 2)
      case BareObject(_) => c1;
    c2 - a
  }

  function ReadVariant(b: Buffer, p: nat): Read<ObjectVariant> {
    var (kind, p) :- ReadOctet(b, p);
    if kind == OBJK_AGENT then var (agent, p) :- ReadAgentRep(b, p); Ok(AgentObject(agent), p)
    else if kind == OBJK_CLIENT then var (client, p) :- ReadClientRep(b, p); Ok(ClientObject(client), p)
    else if kind == OBJK_PARTICIPANT then
      var (r, p) :- ReadRepresentation(b, p, THREE_FORMATS);
      var (domain, p) :- ReadShort(b, p);
      Ok(ParticipantObject(r, domain), p)
    else if IsNamed(kind) then var (r, p) :- ReadRepresentation(b, p, REF_AND_XML); Ok(NamedObject(kind, r), p)
    else if IsGroup(kind) then
      var (r, p) :- ReadRepresentation(b, p, BIN_AND_XML);
      var (parent, p) :- ReadRaw(b, p, 2);
      Ok(GroupObject(kind, r, parent), p)
    else if IsChild(kind) then
      var (r, p) :- ReadRepresentation(b, p, THREE_FORMATS);
      var (parent, p) :- ReadRaw(b, p, 2);
      Ok(ChildObject(kind, r, parent), p)
    else Ok(BareObject(kind), p)
  }

  lemma VariantSizeIsExact(v: ObjectVariant, a: nat, rest: Items)
    requires VariantTracked(v, a)
    ensures End(a, VariantItems(v, rest)) == End(a + VariantSize(v, a), rest)
  {
    hide Grow, End, AgentRepItems, AgentRepSize, ClientRepItems, ClientRepSize, RepresentationItems, RepresentationSize;
    var c := CountsOctet(a, Kind(v), VariantBody(v, rest));
    GrowBytes(a, 1);
    match v
    case AgentObject(agent) =>
      AgentRepSizeIsExact(agent, c, rest);
    case ClientObject(client) =>
      ClientRepSizeIsExact(client, c, rest);
    case ParticipantObject(r, domain) =>
      RepresentationSizeIsExact(r, c, Put(Short(domain), rest));
      c := CountsShort(c + RepresentationSize(r, c), domain, rest);
    case NamedObject(_, r) =>
      RepresentationSizeIsExact(r, c, rest);
    case GroupObject(_, r, parent) =>
      RepresentationSizeIsExact(r, c, Put(Raw(parent), rest));
      c := CountsRaw(c + RepresentationSize(r, c), parent, rest);
    case ChildObject(_, r, parent) =>
      RepresentationSizeIsExact(r, c, Put(Raw(parent), rest));
      c := CountsRaw(c + RepresentationSize(r, c), parent, rest);
    case BareObject(_) =>
  }

  // An untracked variant that is not merely misaligned carries properties.
  lemma VariantSizeFallsShort(v: ObjectVariant, a: nat, rest: Items) returns (e: nat)
    requires a % 2 == 1 && !VariantTracked(v, a)
    ensures End(a, VariantItems(v, rest)) == End(e, rest) && e >= a + VariantSize(v, a) + 4
  {
    hide Grow, End, AgentRepItems, AgentRepSize, ClientRepItems, ClientRepSize;
    var c := CountsOctet(a, Kind(v), VariantBody(v, rest));
    GrowBytes(a, 1);
    if v.AgentObject? {
      e := AgentRepSizeFallsShort(v.agent, c, rest);
    } else {
      e := ClientRepSizeFallsShort(v.client, c, rest);
    }
  }

  /** A variant is sized exactly when it carries no properties and, being a client, starts at an odd offset. */
  lemma VariantSizeIsExactIff(v: ObjectVariant, a: nat)
    ensures End(a, VariantItems(v, Done)) == a + VariantSize(v, a) <==> VariantTracked(v, a)
  {
    hide Grow, End, AgentRepItems, AgentRepSize, ClientRepItems, ClientRepSize, RepresentationItems, RepresentationSize;
    if VariantTracked(v, a) {
      VariantSizeIsExact(v, a, Done);
      EndOfDone(a + VariantSize(v, a));
    } else {
      GrowBytes(a, 1);
      var c := CountsOctet(a, Kind(v), VariantBody(v, Done));
      if v.AgentObject? {
        AgentRepSizeIsExactIff(v.agent, c);
      } else {
        ClientRepSizeIsExactIff(v.client, c);
      }
    }
  }

  lemma VariantReadsBack(b: Buffer, p: nat, v: ObjectVariant, rest: Items) returns (q: nat)
    requires VariantWellFormed(v) && Holds(b, p, VariantItems(v, rest))
    ensures ReadVariant(b, p) == Ok(v, q) && Holds(b, q, rest)
    ensures End(p, VariantItems(v, rest)) == End(q, rest)
  {
    hide Holds, End, ReadOctet, ReadAgentRep, ReadClientRep, ReadRepresentation, ReadShort, ReadRaw;
    hide AgentRepItems, ClientRepItems, RepresentationItems;
    q := ReadsOctet(b, p, Kind(v), VariantBody(v, rest));
    match v
    case AgentObject(agent) =>
      q := AgentRepReadsBack(b, q, agent, rest);
    case ClientObject(client) =>
      q := ClientRepReadsBack(b, q, client, rest);
    case ParticipantObject(r, domain) =>
      q := RepresentationReadsBack(b, q, THREE_FORMATS, r, Put(Short(domain), rest));
      q := ReadsShort(b, q, domain, rest);
    case NamedObject(_, r) =>
      q := RepresentationReadsBack(b, q, REF_AND_XML, r, rest);
    case GroupObject(_, r, parent) =>
      q := RepresentationReadsBack(b, q, BIN_AND_XML, r, Put(Raw(parent), rest));
      q := ReadsRaw(b, q, parent, rest);
    case ChildObject(_, r, parent) =>
      q := RepresentationReadsBack(b, q, THREE_FORMATS, r, Put(Raw(parent), rest));
      q := ReadsRaw(b, q, parent, rest);
    case BareObject(_) =>
  }

  // ---------------------------------------------------------------- activity of the agent

  datatype TransportAddress =
    | Small(address2: Pair, port8: u8)
    | Medium(address4: Quad, port16: u16)
    | Large(address16: Sixteen, port32: u32)
    | Name(value: Bytes)
    | NoAddress(format: u8)

  const ADDRESS_FORMAT_SMALL: u8 := 0
  const ADDRESS_FORMAT_MEDIUM: u8 := 1
  const ADDRESS_FORMAT_LARGE: u8 := 2
  const ADDRESS_FORMAT_STRING: u8 := 3

  function AddressFormat(v: TransportAddress): u8 {
    match v
    case Small(_, _) => ADDRESS_FORMAT_SMALL
    case Medium(_, _) => ADDRESS_FORMAT_MEDIUM
    case Large(_, _) => ADDRESS_FORMAT_LARGE
    case Name(_) => ADDRESS_FORMAT_STRING
    case NoAddress(format) => format
  }

  predicate AddressWellFormed(v: TransportAddress) {
    v.NoAddress? ==> v.format > ADDRESS_FORMAT_STRING
  }

  function AddressBody(v: TransportAddress, rest: Items): Items {
    match v
    case Small(address, port) => Put(Raw(address), Put(Octet(port), rest))
    case Medium(address, port) => Put(Raw(address), Put(Short(port), rest))
    case Large(address, port) => Put(Raw(address), Put(Long(port), rest))
    case Name(value) => Put(String(value), rest)
    case NoAddress(_) => rest
  }

  function AddressItems(v: TransportAddress, rest: Items): Items {
    Put(Octet(AddressFormat(v)), AddressBody(v, rest))
  }

  function AddressSize(v: TransportAddress, a: nat): nat {
    var c1 := Grow(a, 1, 1);
    var c2 := match v
      case Small(_, _) => Grow(Grow(c1, 1, 2), 1, 1)
      case Medium(_, _) => Grow(Grow(c1, 1, 4), 2, 2)
      case Large(_, _) => Grow(Grow(c1, 1, 16), 4, 4)
      case Name(value) => Grow(c1, 4, 4 + |value| + 1)
      case NoAddress(_) => c1;
    c2 - a
  }

  function ReadAddress(b: Buffer, p: nat): Read<TransportAddress> {
    var (format, p) :- ReadOctet(b, p);
    if format == ADDRESS_FORMAT_SMALL then
      var (address, p) :- ReadRaw(b, p, 2);
      var (port, p) :- ReadOctet(b, p);
      Ok(Small(address, port), p)
    else if format == ADDRESS_FORMAT_MEDIUM then
      var (address, p) :- ReadRaw(b, p, 4);
      var (port, p) :- ReadShort(b, p);
      Ok(Medium(address, port), p)
    else if format == ADDRESS_FORMAT_LARGE then
      var (address, p) :- ReadRaw(b, p, 16);
      var (port, p) :- ReadLong(b, p);
      Ok(Large(address, port), p)
    else if format == ADDRESS_FORMAT_STRING then var (value, p) :- ReadString(b, p); Ok(Name(value), p)
    else Ok(NoAddress(format), p)
  }

  lemma AddressSizeIsExact(v: TransportAddress, a: nat, rest: Items)
    ensures End(a, AddressItems(v, rest)) == End(a + AddressSize(v, a), rest)
  {
    hide Grow, End;
    var c := CountsOctet(a, AddressFormat(v), AddressBody(v, rest));
    match v
    case Small(address, port) =>
      c := CountsRaw(c, address, Put(Octet(port), rest));
      c := CountsOctet(c, port, rest);
    case Medium(address, port) =>
      c := CountsRaw(c, address, Put(Short(port), rest));
      c := CountsShort(c, port, rest);
    case Large(address, port) =>
      c := CountsRaw(c, address, Put(Long(port), rest));
      c := CountsLong(c, port, rest);
    case Name(value) =>
      c := CountsString(c, value, rest);
    case NoAddress(_) =>
  }

  lemma AddressReadsBack(b: Buffer, p: nat, v: TransportAddress, rest: Items) returns (q: nat)
    requires AddressWellFormed(v) && Holds(b, p, AddressItems(v, rest))
    ensures ReadAddress(b, p) == Ok(v, q) && Holds(b, q, rest)
    ensures End(p, AddressItems(v, rest)) == End(q, rest)
  {
    hide Holds, End, ReadOctet, ReadRaw, ReadShort, ReadLong, ReadString;
    q := ReadsOctet(b, p, AddressFormat(v), AddressBody(v, rest));
    match v
    case Small(address, port) =>
      q := ReadsRaw(b, q, address, Put(Octet(port), rest));
      q := ReadsOctet(b, q, port, rest);
    case Medium(address, port) =>
      q := ReadsRaw(b, q, address, Put(Short(port), rest));
      q := ReadsShort(b, q, port, rest);
    case Large(address, port) =>
      q := ReadsRaw(b, q, address, Put(Long(port), rest));
      q := ReadsLong(b, q, port, rest);
    case Name(value) =>
      q := ReadsString(b, q, value, rest);
    case NoAddress(_) =>
  }

  function AddressesItems(vs: seq<TransportAddress>, rest: Items): Items
    decreases |vs|
  {
    if vs == [] then rest else AddressItems(vs[0], AddressesItems(vs[1..], rest))
  }

  function AddressesSize(vs: seq<TransportAddress>, a: nat): nat
    decreases |vs|
  {
    if vs == [] then 0
    else
      var first := AddressSize(vs[0], a);
      first + AddressesSize(vs[1..], a + first)
  }

  function ReadAddresses(b: Buffer, p: nat, n: nat): Read<seq<TransportAddress>>
    decreases n
  {
    if n == 0 then Ok([], p)
    else
      var (first, p) :- ReadAddress(b, p);
      var (others, p) :- ReadAddresses(b, p, n - 1);
      Ok([first] + others, p)
  }

  predicate AddressesWellFormed(vs: seq<TransportAddress>) {
    forall i :: 0 <= i < |vs| ==> AddressWellFormed(vs[i])
  }

  lemma {:induction false} AddressesSizeIsExact(vs: seq<TransportAddress>, a: nat, rest: Items)
    ensures End(a, AddressesItems(vs, rest)) == End(a + AddressesSize(vs, a), rest)
    decreases |vs|
  {
    hide End, AddressItems, AddressSize;
    if vs != [] {
      AddressSizeIsExact(vs[0], a, AddressesItems(vs[1..], rest));
      AddressesSizeIsExact(vs[1..], a + AddressSize(vs[0], a), rest);
    }
  }

  lemma {:induction false} AddressesReadBack(b: Buffer, p: nat, vs: seq<TransportAddress>, rest: Items) returns (q: nat)
    requires AddressesWellFormed(vs) && Holds(b, p, AddressesItems(vs, rest))
    ensures ReadAddresses(b, p, |vs|) == Ok(vs, q) && Holds(b, q, rest)
    ensures End(p, AddressesItems(vs, rest)) == End(q, rest)
    decreases |vs|
  {
    hide Holds, End, ReadAddress, AddressItems;
    q := p;
    if vs != [] {
      var m := AddressReadsBack(b, p, vs[0], AddressesItems(vs[1..], rest));
      q := AddressesReadBack(b, m, vs[1..], rest);
      assert [vs[0]] + vs[1..] == vs;
    }
  }

  // Addresses stored in a buffer are fewer than its bytes.
  lemma {:induction false} AddressesFit(b: Buffer, p: nat, vs: seq<TransportAddress>, rest: Items)
    requires Holds(b, p, AddressesItems(vs, rest))
    ensures vs != [] ==> p + |vs| <= |b|
    decreases |vs|
  {
    if vs != [] {
      var k := AddressesItems(vs[1..], rest);
      Stored(b, p, Octet(AddressFormat(vs[0])), AddressBody(vs[0], k));
      var m := AddressBodyHeld(b, p + 1, vs[0], k);
      AddressesFit(b, m, vs[1..], rest);
    }
  }

  lemma AddressBodyHeld(b: Buffer, p: nat, v: TransportAddress, rest: Items) returns (q: nat)
    requires Holds(b, p, AddressBody(v, rest))
    ensures q >= p && Holds(b, q, rest)
  {
    hide Holds, End, Padding;
    match v
    case Small(address, port) =>
      Stored(b, p, Raw(address), Put(Octet(port), rest));
      q := After(p, Raw(address));
      Stored(b, q, Octet(port), rest);
      q := After(q, Octet(port));
    case Medium(address, port) =>
      Stored(b, p, Raw(address), Put(Short(port), rest));
      q := After(p, Raw(address));
      Stored(b, q, Short(port), rest);
      q := After(q, Short(port));
    case Large(address, port) =>
      Stored(b, p, Raw(address), Put(Long(port), rest));
      q := After(p, Raw(address));
      Stored(b, q, Long(port), rest);
      q := After(q, Long(port));
    case Name(value) =>
      Stored(b, p, String(value), rest);
      q := After(p, String(value));
    case NoAddress(_) =>
      q := p;
  }

  datatype AgentActivity = AgentActivity(availability: u16, addresses: seq<TransportAddress>)

  function AgentActivityItems(v: AgentActivity, rest: Items): Items {
    Put(Short(v.availability), Put(Long(LengthField(|v.addresses|)), AddressesItems(v.addresses, rest)))
  }

  function AgentActivitySize(v: AgentActivity, a: nat): nat {
    var c1 := Grow(a, 2, 2);
    var c2 := Grow(c1, 4, 4);
    var c3 := c2 + AddressesSize(v.addresses, c2);
    c3 - a
  }

  function ReadAgentActivity(b: Buffer, p: nat): Read<AgentActivity> {
    var (availability, p) :- ReadShort(b, p);
    var (n, p) :- ReadLong(b, p);
    var (addresses, p) :- ReadAddresses(b, p, n);
    Ok(AgentActivity(availability, addresses), p)
  }

  lemma AgentActivitySizeIsExact(v: AgentActivity, a: nat, rest: Items)
    ensures End(a, AgentActivityItems(v, rest)) == End(a + AgentActivitySize(v, a), rest)
  {
    hide Grow, End, AddressesItems, AddressesSize, LengthField;
    var k2 := AddressesItems(v.addresses, rest);
    var k1 := Put(Long(LengthField(|v.addresses|)), k2);
    var c := CountsShort(a, v.availability, k1);
    c := CountsLong(c, LengthField(|v.addresses|), k2);
    AddressesSizeIsExact(v.addresses, c, rest);
  }

  lemma AgentActivityReadsBack(b: Buffer, p: nat, v: AgentActivity, rest: Items) returns (q: nat)
    requires AddressesWellFormed(v.addresses) && Holds(b, p, AgentActivityItems(v, rest))
    ensures ReadAgentActivity(b, p) == Ok(v, q) && Holds(b, q, rest)
    ensures End(p, AgentActivityItems(v, rest)) == End(q, rest)
  {
    hide Holds, End, ReadShort, ReadLong, ReadAddresses, AddressesItems;
    var n := LengthField(|v.addresses|);
    var k2 := AddressesItems(v.addresses, rest);
    var k1 := Put(Long(n), k2);
    q := ReadsShort(b, p, v.availability, k1);
    q := ReadsLong(b, q, n, k2);
    AddressesFit(b, q, v.addresses, rest);
    assert n == |v.addresses|;
    q := AddressesReadBack(b, q, v.addresses, rest);
  }

  /** ActivityInfoVariant: the agent's activity, or a kind without a body. */
  datatype ActivityVariant = ActivityOfAgent(activity: AgentActivity) | NoActivity(kind: u8)

  // The bodies of data writer and data reader activities are not modelled.
  predicate ActivityWellFormed(v: ActivityVariant) {
    match v
    case ActivityOfAgent(activity) => AddressesWellFormed(activity.addresses)
    case NoActivity(kind) => kind !in {OBJK_AGENT, OBJK_DATAWRITER, OBJK_DATAREADER}
  }

  function ActivityItems(v: ActivityVariant, rest: Items): Items {
    match v
    case ActivityOfAgent(activity) => Put(Octet(OBJK_AGENT), AgentActivityItems(activity, rest))
    case NoActivity(kind) => Put(Octet(kind), rest)
  }

  function ActivitySize(v: ActivityVariant, a: nat): nat {
    var c1 := Grow(a, 1, 1);
    var c2 := if v.ActivityOfAgent? then c1 + AgentActivitySize(v.activity, c1) else c1;
    c2 - a
  }

  function ReadActivity(b: Buffer, p: nat): Read<ActivityVariant> {
    var (kind, p) :- ReadOctet(b, p);
    if kind == OBJK_AGENT then var (activity, p) :- ReadAgentActivity(b, p); Ok(ActivityOfAgent(activity), p)
    else if kind in {OBJK_DATAWRITER, OBJK_DATAREADER} then BadParam
    else Ok(NoActivity(kind), p)
  }

  lemma ActivitySizeIsExact(v: ActivityVariant, a: nat, rest: Items)
    ensures End(a, ActivityItems(v, rest)) == End(a + ActivitySize(v, a), rest)
  {
    hide Grow, End, AgentActivityItems, AgentActivitySize;
    match v
    case ActivityOfAgent(activity) =>
      var c := CountsOctet(a, OBJK_AGENT, AgentActivityItems(activity, rest));
      AgentActivitySizeIsExact(activity, c, rest);
    case NoActivity(kind) =>
      var c := CountsOctet(a, kind, rest);
  }

  lemma ActivityReadsBack(b: Buffer, p: nat, v: ActivityVariant, rest: Items) returns (q: nat)
    requires ActivityWellFormed(v) && Holds(b, p, ActivityItems(v, rest))
    ensures ReadActivity(b, p) == Ok(v, q) && Holds(b, q, rest)
    ensures End(p, ActivityItems(v, rest)) == End(q, rest)
  {
    hide Holds, End, ReadOctet, ReadAgentActivity, AgentActivityItems;
    match v
    case ActivityOfAgent(activity) =>
      q := ReadsOctet(b, p, OBJK_AGENT, AgentActivityItems(activity, rest));
      q := AgentActivityReadsBack(b, q, activity, rest);
    case NoActivity(kind) =>
      q := ReadsOctet(b, p, kind, rest);
  }

  datatype ObjectInfo = ObjectInfo(config: Option<ObjectVariant>, activity: Option<ActivityVariant>)

  predicate InfoWellFormed(v: ObjectInfo) {
    && (v.config.Some? ==> VariantWellFormed(v.config.value))
    && (v.activity.Some? ==> ActivityWellFormed(v.activity.value))
  }

  predicate InfoTracked(v: ObjectInfo, a: nat) {
    v.config.Some? ==> VariantTracked(v.config.value, a + 1)
  }

  function InfoActivityItems(v: ObjectInfo, rest: Items): Items {
    Put(Octet(BoolOctet(v.activity.Some?)), if v.activity.Some? then ActivityItems(v.activity.value, rest) else rest)
  }

  function InfoItems(v: ObjectInfo, rest: Items): Items {
    var k := InfoActivityItems(v, rest);
    Put(Octet(BoolOctet(v.config.Some?)), if v.config.Some? then VariantItems(v.config.value, k) else k)
  }

  function InfoSize(v: ObjectInfo, a: nat): nat {
    var c1 := Grow(a, 1, 1);
    var c2 := if v.config.Some? then c1 + VariantSize(v.config.value, c1) else c1;
    var c3 := Grow(c2, 1, 1);
    var c4 := if v.activity.Some? then c3 + ActivitySize(v.activity.value, c3) else c3;
    c4 - a
  }

  function ReadInfo(b: Buffer, p: nat): Read<ObjectInfo> {
    var (hasConfig, p) :- ReadBool(b, p);
    if hasConfig then
      var (config, p) :- ReadVariant(b, p);
      ReadInfoActivity(b, p, Some(config))
    else ReadInfoActivity(b, p, None)
  }

  function ReadInfoActivity(b: Buffer, p: nat, config: Option<ObjectVariant>): Read<ObjectInfo> {
    var (hasActivity, p) :- ReadBool(b, p);
    if hasActivity then
      var (activity, p) :- ReadActivity(b, p);
      Ok(ObjectInfo(config, Some(activity)), p)
    else Ok(ObjectInfo(config, None), p)
  }

  lemma InfoSizeIsExact(v: ObjectInfo, a: nat, rest: Items)
    requires InfoTracked(v, a)
    ensures End(a, InfoItems(v, rest)) == End(a + InfoSize(v, a), rest)
  {
    hide Grow, End, VariantItems, VariantSize, ActivityItems, ActivitySize;
    var k := InfoActivityItems(v, rest);
    var c := CountsOctet(a, BoolOctet(v.config.Some?), if v.config.Some? then VariantItems(v.config.value, k) else k);
    GrowBytes(a, 1);
    if v.config.Some? {
      VariantSizeIsExact(v.config.value, c, k);
      c := c + VariantSize(v.config.value, c);
    }
    c := CountsOctet(c, BoolOctet(v.activity.Some?),
                     if v.activity.Some? then ActivityItems(v.activity.value, rest) else rest);
    if v.activity.Some? {
      ActivitySizeIsExact(v.activity.value, c, rest);
    }
  }

  // What follows the configuration cannot make up for its missing bytes.
  lemma InfoSizeFallsShort(v: ObjectInfo, a: nat, rest: Items)
    requires a % 2 == 0 && !InfoTracked(v, a)
    ensures End(a, InfoItems(v, rest)) >= End(a + InfoSize(v, a), rest) + 4
  {
    hide Grow, End, VariantItems, VariantSize, VariantTracked, ActivityItems, ActivitySize;
    var k := InfoActivityItems(v, rest);
    var c := CountsOctet(a, BoolOctet(true), VariantItems(v.config.value, k));
    GrowBytes(a, 1);
    var e := VariantSizeFallsShort(v.config.value, c, k);
    c := c + VariantSize(v.config.value, c);
    EndFourLater(c, e, k);
    c := CountsOctet(c, BoolOctet(v.activity.Some?),
                     if v.activity.Some? then ActivityItems(v.activity.value, rest) else rest);
    if v.activity.Some? {
      ActivitySizeIsExact(v.activity.value, c, rest);
    }
  }

  lemma InfoReadsBack(b: Buffer, p: nat, v: ObjectInfo, rest: Items) returns (q: nat)
    requires InfoWellFormed(v) && Holds(b, p, InfoItems(v, rest))
    ensures ReadInfo(b, p) == Ok(v, q) && Holds(b, q, rest)
    ensures End(p, InfoItems(v, rest)) == End(q, rest)
  {
    hide Holds, End, ReadBool, ReadVariant, ReadActivity, VariantItems, ActivityItems;
    var k := InfoActivityItems(v, rest);
    q := ReadsBool(b, p, v.config.Some?, if v.config.Some? then VariantItems(v.config.value, k) else k);
    if v.config.Some? {
      q := VariantReadsBack(b, q, v.config.value, k);
    }
    q := ReadsBool(b, q, v.activity.Some?, if v.activity.Some? then ActivityItems(v.activity.value, rest) else rest);
    if v.activity.Some? {
      q := ActivityReadsBack(b, q, v.activity.value, rest);
    }
  }

  // ---------------------------------------------------------------- read specifications

  datatype ReadSpecification = ReadSpecification(
    stream: u8,
    format: u8,
    filter: Option<Bytes>,
    control: Option<DeliveryControl>)

  function SpecControlItems(v: ReadSpecification, rest: Items): Items {
    Put(Octet(BoolOctet(v.control.Some?)),
        if v.control.Some? then DeliveryControlItems(v.control.value, rest) else rest)
  }

  function SpecFilterItems(v: ReadSpecification, rest: Items): Items {
    var k := SpecControlItems(v, rest);
    Put(Octet(BoolOctet(v.filter.Some?)), if v.filter.Some? then Put(String(v.filter.value), k) else k)
  }

  function SpecItems(v: ReadSpecification, rest: Items): Items {
    Put(Octet(v.stream), Put(Octet(v.format), SpecFilterItems(v, rest)))
  }

  function SpecSize(v: ReadSpecification, a: nat): nat {
    var c1 := Grow(a, 1, 1);
    var c2 := Grow(c1, 1, 1);
    var c3 := Grow(c2, 1, 1);
    var c4 := if v.filter.Some? then Grow(c3, 4, 4 + |v.filter.value| + 1) else c3;
    var c5 := Grow(c4, 1, 1);
    var c6 := if v.control.Some? then c5 + DeliveryControlSize(v.control.value, c5) else c5;
    c6 - a
  }

  function ReadSpec(b: Buffer, p: nat): Read<ReadSpecification> {
    var (stream, p) :- ReadOctet(b, p);
    var (format, p) :- ReadOctet(b, p);
    var (hasFilter, p) :- ReadBool(b, p);
    if hasFilter then
      var (filter, p) :- ReadString(b, p);
      ReadSpecControl(b, p, stream, format, Some(filter))
    else ReadSpecControl(b, p, stream, format, None)
  }

  function ReadSpecControl(b: Buffer, p: nat, stream: u8, format: u8, filter: Option<Bytes>): Read<ReadSpecification> {
    var (hasControl, p) :- ReadBool(b, p);
    if hasControl then
      var (control, p) :- ReadDeliveryControl(b, p);
      Ok(ReadSpecification(stream, format, filter, Some(control)), p)
    else Ok(ReadSpecification(stream, format, filter, None), p)
  }

  lemma SpecSizeIsExact(v: ReadSpecification, a: nat, rest: Items)
    ensures End(a, SpecItems(v, rest)) == End(a + SpecSize(v, a), rest)
  {
    hide Grow, End, DeliveryControlItems, DeliveryControlSize;
    var k := SpecControlItems(v, rest);
    var c := CountsOctet(a, v.stream, Put(Octet(v.format), SpecFilterItems(v, rest)));
    c := CountsOctet(c, v.format, SpecFilterItems(v, rest));
    c := CountsOctet(c, BoolOctet(v.filter.Some?), if v.filter.Some? then Put(String(v.filter.value), k) else k);
    if v.filter.Some? {
      c := CountsString(c, v.filter.value, k);
    }
    c := CountsOctet(c, BoolOctet(v.control.Some?),
                     if v.control.Some? then DeliveryControlItems(v.control.value, rest) else rest);
    if v.control.Some? {
      DeliveryControlSizeIsExact(v.control.value, c, rest);
    }
  }

  lemma SpecReadsBack(b: Buffer, p: nat, v: ReadSpecification, rest: Items) returns (q: nat)
    requires Holds(b, p, SpecItems(v, rest))
    ensures ReadSpec(b, p) == Ok(v, q) && Holds(b, q, rest)
    ensures End(p, SpecItems(v, rest)) == End(q, rest)
  {
    hide Holds, End, ReadOctet, ReadBool, ReadString, ReadDeliveryControl, DeliveryControlItems;
    var k := SpecControlItems(v, rest);
    q := ReadsOctet(b, p, v.stream, Put(Octet(v.format), SpecFilterItems(v, rest)));
    q := ReadsOctet(b, q, v.format, SpecFilterItems(v, rest));
    q := ReadsBool(b, q, v.filter.Some?, if v.filter.Some? then Put(String(v.filter.value), k) else k);
    if v.filter.Some? {
      q := ReadsString(b, q, v.filter.value, k);
    }
    q := ReadsBool(b, q, v.control.Some?,
                   if v.control.Some? then DeliveryControlItems(v.control.value, rest) else rest);
    if v.control.Some? {
      q := DeliveryControlReadsBack(b, q, v.control.value, rest);
    }
  }

  // ---------------------------------------------------------------- payloads

  /** Data is WRITE_DATA in FORMAT_DATA and DATA: raw bytes without a length of their own. */
  datatype Payload =
    | CreateClient(client: ClientRep)
    | Create(request: Request, object_: ObjectVariant)
    | GetInfo(request: Request, mask: u32)
    | Delete(request: Request)
    | StatusAgent(result: ResultStatus, agent: AgentRep)
    | Status(request: Request, result: ResultStatus)
    | Info(request: Request, result: ResultStatus, info: ObjectInfo)
    | Data(request: Request, data: Bytes)
    | ReadData(request: Request, spec: ReadSpecification)
    | Acknack(acknack: AckNack)
    | Beat(heartbeat: Heartbeat)
    | Timestamp(transmit: Time)
    | TimestampReply(transmit: Time, receive: Time, originate: Time)

  // The payload type a receiver asks get_payload for.
  datatype PayloadType =
    | TCreateClient | TCreate | TGetInfo | TDelete | TStatusAgent | TStatus | TInfo | TData | TReadData
    | TAcknack | TBeat | TTimestamp | TTimestampReply

  function TypeOf(v: Payload): PayloadType {
    match v
    case CreateClient(_) => TCreateClient
    case Create(_, _) => TCreate
    case GetInfo(_, _) => TGetInfo
    case Delete(_) => TDelete
    case StatusAgent(_, _) => TStatusAgent
    case Status(_, _) => TStatus
    case Info(_, _, _) => TInfo
    case Data(_, _) => TData
    case ReadData(_, _) => TReadData
    case Acknack(_) => TAcknack
    case Beat(_) => TBeat
    case Timestamp(_) => TTimestamp
    case TimestampReply(_, _, _) => TTimestampReply
  }

  predicate WellFormed(v: Payload) {
    match v
    case Create(_, o) => VariantWellFormed(o)
    case Info(_, _, info) => InfoWellFormed(info)
    case _ => true
  }

  // Whether the size of the payload, computed at an offset, tracks the printer there.
  predicate Tracked(v: Payload, a: nat) {
    match v
    case CreateClient(client) => client.properties.None? && a % 2 == 0
    case Create(_, o) => VariantTracked(o, a + 4)
    case StatusAgent(_, agent) => agent.properties.None?
    case Info(_, _, info) => InfoTracked(info, a + 6)
    case _ => true
  }

  function PayloadItems(v: Payload, rest: Items): Items {
    match v
    case CreateClient(client) => ClientRepItems(client, rest)
    case Create(request, o) => RequestItems(request, VariantItems(o, rest))
    case GetInfo(request, mask) => RequestItems(request, Put(Long(mask), rest))
    case Delete(request) => RequestItems(request, rest)
    case StatusAgent(result, agent) => ResultStatusItems(result, AgentRepItems(agent, rest))
    case Status(request, result) => RequestItems(request, ResultStatusItems(result, rest))
    case Info(request, result, info) => RequestItems(request, ResultStatusItems(result, InfoItems(info, rest)))
    case Data(request, data) => RequestItems(request, Put(Raw(data), rest))
    case ReadData(request, spec) => RequestItems(request, SpecItems(spec, rest))
    case Acknack(v) => AckNackItems(v, rest)
    case Beat(v) => HeartbeatItems(v, rest)
    case Timestamp(t) => TimeItems(t, rest)
    case TimestampReply(t, r, o) => TimeItems(t, TimeItems(r, TimeItems(o, rest)))
  }

  function PayloadSize(v: Payload, a: nat): nat {
    match v
    case CreateClient(client) => ClientRepSize(client, a)
    case Create(request, o) => var c := a + RequestSize(request, a); c + VariantSize(o, c) - a
    case GetInfo(request, _) => var c := a + RequestSize(request, a); Grow(c, 4, 4) - a
    case Delete(request) => RequestSize(request, a)
    case StatusAgent(result, agent) => var c := a + ResultStatusSize(result, a); c + AgentRepSize(agent, c) - a
    case Status(request, result) => var c := a + RequestSize(request, a); c + ResultStatusSize(result, c) - a
    case Info(request, result, info) =>
      var c := a + RequestSize(request, a);
      var d := c + ResultStatusSize(result, c);
      d + InfoSize(info, d) - a
    case Data(request, data) => var c := a + RequestSize(request, a); Grow(c, 1, |data|) - a
    case ReadData(request, spec) => var c := a + RequestSize(request, a); c + SpecSize(spec, c) - a
    case Acknack(v) => AckNackSize(v, a)
    case Beat(v) => HeartbeatSize(v, a)
    case Timestamp(t) => TimeSize(t, a)
    case TimestampReply(t, r, o) =>
      var c := a + TimeSize(t, a);
      var d := c + TimeSize(r, c);
      d + TimeSize(o, d) - a
  }

  // get_payload: length is the submessage length, which only the raw data payload consults.
  function ReadPayload(b: Buffer, p: nat, t: PayloadType, length: u16): Read<Payload> {
    match t
    case TCreateClient => var (client, p) :- ReadClientRep(b, p); Ok(CreateClient(client), p)
    case TCreate =>
      var (request, p) :- ReadRequest(b, p);
      var (o, p) :- ReadVariant(b, p);
      Ok(Create(request, o), p)
    case TGetInfo =>
      var (request, p) :- ReadRequest(b, p);
      var (mask, p) :- ReadLong(b, p);
      Ok(GetInfo(request, mask), p)
    case TDelete => var (request, p) :- ReadRequest(b, p); Ok(Delete(request), p)
    case TStatusAgent =>
      var (result, p) :- ReadResultStatus(b, p);
      var (agent, p) :- ReadAgentRep(b, p);
      Ok(StatusAgent(result, agent), p)
    case TStatus =>
      var (request, p) :- ReadRequest(b, p);
      var (result, p) :- ReadResultStatus(b, p);
      Ok(Status(request, result), p)
    case TInfo =>
      var (request, p) :- ReadRequest(b, p);
      var (result, p) :- ReadResultStatus(b, p);
      var (info, p) :- ReadInfo(b, p);
      Ok(Info(request, result, info), p)
    case TData =>
      if length < 4 then BadParam
      else
        var (request, p) :- ReadRequest(b, p);
        var (data, p) :- ReadRaw(b, p, length - 4);
        Ok(Data(request, data), p)
    case TReadData =>
      var (request, p) :- ReadRequest(b, p);
      var (spec, p) :- ReadSpec(b, p);
      Ok(ReadData(request, spec), p)
    case TAcknack => var (v, p) :- ReadAckNack(b, p); Ok(Acknack(v), p)
    case TBeat => var (v, p) :- ReadHeartbeat(b, p); Ok(Beat(v), p)
    case TTimestamp => var (t, p) :- ReadTime(b, p); Ok(Timestamp(t), p)
    case TTimestampReply =>
      var (t, p) :- ReadTime(b, p);
      var (r, p) :- ReadTime(b, p);
      var (o, p) :- ReadTime(b, p);
      Ok(TimestampReply(t, r, o), p)
  }

  lemma RequestSizeIsFour(v: Request, a: nat)
    ensures RequestSize(v, a) == 4
  {
  }

  lemma ResultStatusSizeIsTwo(v: ResultStatus, a: nat)
    ensures ResultStatusSize(v, a) == 2
  {
  }

  /** Size agrees with printer: wherever the size tracks the printer, it is exactly what is put. */
  lemma PayloadSizeIsExact(v: Payload, a: nat, rest: Items)
    requires Tracked(v, a)
    ensures End(a, PayloadItems(v, rest)) == End(a + PayloadSize(v, a), rest)
  {
    hide Grow, End, RequestItems, RequestSize, ResultStatusItems, ResultStatusSize, VariantItems, VariantSize;
    hide AgentRepItems, AgentRepSize, ClientRepItems, ClientRepSize, InfoItems, InfoSize, SpecItems, SpecSize;
    hide AckNackItems, AckNackSize, HeartbeatItems, HeartbeatSize, TimeItems, TimeSize;
    hide VariantTracked, InfoTracked;
    match v
    case CreateClient(client) =>
      ClientRepSizeIsExact(client, a, rest);
    case Create(request, o) =>
      RequestSizeIsExact(request, a, VariantItems(o, rest));
      RequestSizeIsFour(request, a);
      VariantSizeIsExact(o, a + 4, rest);
    case GetInfo(request, mask) =>
      RequestSizeIsExact(request, a, Put(Long(mask), rest));
      var c := CountsLong(a + RequestSize(request, a), mask, rest);
    case Delete(request) =>
      RequestSizeIsExact(request, a, rest);
    case StatusAgent(result, agent) =>
      ResultStatusSizeIsExact(result, a, AgentRepItems(agent, rest));
      AgentRepSizeIsExact(agent, a + ResultStatusSize(result, a), rest);
    case Status(request, result) =>
      RequestSizeIsExact(request, a, ResultStatusItems(result, rest));
      ResultStatusSizeIsExact(result, a + RequestSize(request, a), rest);
    case Info(request, result, info) =>
      RequestSizeIsExact(request, a, ResultStatusItems(result, InfoItems(info, rest)));
      RequestSizeIsFour(request, a);
      ResultStatusSizeIsExact(result, a + 4, InfoItems(info, rest));
      ResultStatusSizeIsTwo(result, a + 4);
      InfoSizeIsExact(info, a + 6, rest);
    case Data(request, data) =>
      RequestSizeIsExact(request, a, Put(Raw(data), rest));
      var c := CountsRaw(a + RequestSize(request, a), data, rest);
    case ReadData(request, spec) =>
      RequestSizeIsExact(request, a, SpecItems(spec, rest));
      SpecSizeIsExact(spec, a + RequestSize(request, a), rest);
    case Acknack(w) =>
      AckNackSizeIsExact(w, a, rest);
    case Beat(w) =>
      HeartbeatSizeIsExact(w, a, rest);
    case Timestamp(t) =>
      TimeSizeIsExact(t, a, rest);
    case TimestampReply(t, r, o) =>
      TimeSizeIsExact(t, a, TimeItems(r, TimeItems(o, rest)));
      var c := a + TimeSize(t, a);
      TimeSizeIsExact(r, c, TimeItems(o, rest));
      TimeSizeIsExact(o, c + TimeSize(r, c), rest);
  }

  /** At the even offsets where payloads start, the size agrees with the printer exactly when no client or agent
      representation in the payload carries properties and no client representation is created as an object. */
  lemma PayloadSizeIsExactIff(v: Payload, a: nat)
    requires a % 2 == 0
    ensures End(a, PayloadItems(v, Done)) == a + PayloadSize(v, a)
            <==> PropertiesOf(v).None? && !(v.Create? && v.object_.ClientObject?)
  {
    hide Grow, RequestItems, RequestSize, ResultStatusItems, ResultStatusSize, VariantItems, VariantSize;
    hide AgentRepItems, AgentRepSize, ClientRepItems, ClientRepSize, InfoItems, InfoSize, SpecItems, SpecSize;
    hide AckNackItems, AckNackSize, HeartbeatItems, HeartbeatSize, TimeItems, TimeSize;
    assert Tracked(v, a) <==> PropertiesOf(v).None? && !(v.Create? && v.object_.ClientObject?);
    if Tracked(v, a) {
      PayloadSizeIsExact(v, a, Done);
    } else {
      UntrackedSizeIsWrong(v, a);
    }
  }

  // The properties of the client or agent representation in a payload, if there is one that carries any.
  function PropertiesOf(v: Payload): PropertySeq {
    match v
    case CreateClient(client) => client.properties
    case Create(_, o) => VariantProperties(o)
    case StatusAgent(_, agent) => agent.properties
    case Info(_, _, info) => if info.config.Some? then VariantProperties(info.config.value) else None
    case _ => None
  }

  function VariantProperties(v: ObjectVariant): PropertySeq {
    match v
    case AgentObject(agent) => agent.properties
    case ClientObject(client) => client.properties
    case _ => None
  }

  lemma UntrackedSizeIsWrong(v: Payload, a: nat)
    requires a % 2 == 0 && !Tracked(v, a)
    ensures End(a, PayloadItems(v, Done)) != a + PayloadSize(v, a)
  {
    hide Grow, End, RequestItems, RequestSize, ResultStatusItems, ResultStatusSize, VariantItems, VariantSize;
    hide AgentRepItems, AgentRepSize, ClientRepItems, ClientRepSize, InfoItems, InfoSize;
    hide VariantTracked, InfoTracked;
    match v
    case CreateClient(client) =>
      ClientRepSizeIsExactIff(client, a);
    case Create(request, o) =>
      RequestSizeIsExact(request, a, VariantItems(o, Done));
      RequestSizeIsFour(request, a);
      VariantSizeIsExactIff(o, a + 4);
    case StatusAgent(result, agent) =>
      ResultStatusSizeIsExact(result, a, AgentRepItems(agent, Done));
      AgentRepSizeIsExactIff(agent, a + ResultStatusSize(result, a));
    case Info(request, result, info) =>
      RequestSizeIsExact(request, a, ResultStatusItems(result, InfoItems(info, Done)));
      RequestSizeIsFour(request, a);
      ResultStatusSizeIsExact(result, a + 4, InfoItems(info, Done));
      ResultStatusSizeIsTwo(result, a + 4);
      InfoSizeFallsShort(info, a + 6, Done);
      EndOfDone(a + 6 + InfoSize(info, a + 6));
  }

  /** Properties break the size even when there are none in the sequence: a STATUS_AGENT that carries an
      empty one is sized as 11 bytes and printed as 16. */
  lemma PropertiesBreakTheSize(result: ResultStatus, agent: AgentRep)
    requires agent.properties == Some([])
    ensures var v := StatusAgent(result, agent);
            PayloadSize(v, 0) == 11 && End(0, PayloadItems(v, Done)) == 16
  {
    hide End, AgentRepItems, AgentRepSize, OptionalPropertiesEnd, OptionalPropertiesSize;
    hide ResultStatusItems, ResultStatusSize;
    ResultStatusSizeIsTwo(result, 0);
    ResultStatusSizeIsExact(result, 0, AgentRepItems(agent, Done));
    AgentRepEndsThere(agent, 2, Done);
    EmptyPropertiesEnd();
    EndOfDone(16);
  }

  lemma OptionalPropertiesSizeIsOne(ps: PropertySeq, a: nat)
    requires ps.None?
    ensures OptionalPropertiesSize(ps, a) == 1
  {
  }

  lemma EmptyPropertiesEnd()
    ensures OptionalPropertiesEnd(Some([]), 10) == 16 && OptionalPropertiesSize(Some([]), 10) == 1
  {
  }

  /** A client representation created as an object starts at an odd offset, and its last field is printed
      one byte later than the size counts. */
  lemma CreatedClientBreaksTheSize(request: Request, client: ClientRep)
    requires client.properties.None?
    ensures var v := Create(request, ClientObject(client));
            PayloadSize(v, 0) == 21 && End(0, PayloadItems(v, Done)) == 22
  {
    hide End, RequestItems, RequestSize, ClientRepItems, ClientRepSize, OptionalPropertiesEnd, OptionalPropertiesSize;
    RequestSizeIsFour(request, 0);
    RequestSizeIsExact(request, 0, VariantItems(ClientObject(client), Done));
    var c := CountsOctet(4, OBJK_CLIENT, ClientRepItems(client, Done));
    NoPropertiesEnd(client.properties, 18);
    OptionalPropertiesSizeIsOne(client.properties, 18);
    ClientRepEndsThere(client, 5, Done);
    ClientRepSizeIs(client, 5);
    EndOfDone(22);
  }

  /** Parsing a printed payload gives it back and leaves the cursor where it ends; the submessage length
      matters to raw data alone. */
  lemma PayloadReadsBack(b: Buffer, p: nat, v: Payload, length: u16, rest: Items) returns (q: nat)
    requires WellFormed(v) && (v.Data? ==> length == 4 + |v.data|)
    requires Holds(b, p, PayloadItems(v, rest))
    ensures ReadPayload(b, p, TypeOf(v), length) == Ok(v, q) && Holds(b, q, rest)
    ensures End(p, PayloadItems(v, rest)) == End(q, rest)
  {
    hide Holds, End, RequestItems, ResultStatusItems, VariantItems, AgentRepItems, ClientRepItems, InfoItems, SpecItems;
    hide AckNackItems, HeartbeatItems, TimeItems, ReadRaw, ReadLong, ReadRequest, ReadResultStatus, ReadVariant;
    hide ReadAgentRep, ReadClientRep, ReadInfo, ReadSpec, ReadAckNack, ReadHeartbeat, ReadTime;
    match v
    case CreateClient(client) =>
      q := ClientRepReadsBack(b, p, client, rest);
    case Create(request, o) =>
      q := RequestReadsBack(b, p, request, VariantItems(o, rest));
      q := VariantReadsBack(b, q, o, rest);
    case GetInfo(request, mask) =>
      q := RequestReadsBack(b, p, request, Put(Long(mask), rest));
      q := ReadsLong(b, q, mask, rest);
    case Delete(request) =>
      q := RequestReadsBack(b, p, request, rest);
    case StatusAgent(result, agent) =>
      q := ResultStatusReadsBack(b, p, result, AgentRepItems(agent, rest));
      q := AgentRepReadsBack(b, q, agent, rest);
    case Status(request, result) =>
      q := RequestReadsBack(b, p, request, ResultStatusItems(result, rest));
      q := ResultStatusReadsBack(b, q, result, rest);
    case Info(request, result, info) =>
      q := RequestReadsBack(b, p, request, ResultStatusItems(result, InfoItems(info, rest)));
      q := ResultStatusReadsBack(b, q, result, InfoItems(info, rest));
      q := InfoReadsBack(b, q, info, rest);
    case Data(request, data) =>
      q := RequestReadsBack(b, p, request, Put(Raw(data), rest));
      q := ReadsRaw(b, q, data, rest);
    case ReadData(request, spec) =>
      q := RequestReadsBack(b, p, request, SpecItems(spec, rest));
      q := SpecReadsBack(b, q, spec, rest);
    case Acknack(w) =>
      q := AckNackReadsBack(b, p, w, rest);
    case Beat(w) =>
      q := HeartbeatReadsBack(b, p, w, rest);
    case Timestamp(t) =>
      q := TimeReadsBack(b, p, t, rest);
    case TimestampReply(t, r, o) =>
      q := TimeReadsBack(b, p, t, TimeItems(r, TimeItems(o, rest)));
      q := TimeReadsBack(b, q, r, TimeItems(o, rest));
      q := TimeReadsBack(b, q, o, rest);
  }
}
