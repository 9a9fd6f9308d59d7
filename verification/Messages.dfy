/** XRCE messages: a header, then submessages, each aligned to four bytes and led by a subheader.
    OutputMessage prints them into a fixed buffer, InputMessage parses them, and the processor
    sizes the buffers of its own replies by hand. */
module Messages {
  import opened Words
  import opened Cdr
  import opened XrceTypes
  import opened XrcePayloads

  const NO_KEY: Quad := [0, 0, 0, 0]

  datatype Header = Header(session: u8, stream: u8, sequence: u16, key: Quad)

  datatype SubHeader = SubHeader(id: u8, flags: u8, length: u16)

  datatype Submessage = Submessage(id: u8, flags: u8, payload: Payload)

  // ---------------------------------------------------------------- headers

  predicate CarriesKey(h: Header) {
    128 > h.session
  }

  function HeaderItems(h: Header): Items {
    Put(Octet(h.session), Put(Octet(h.stream), Put(Short(h.sequence),
      if CarriesKey(h) then Put(Raw(h.key), Done) else Done)))
  }

  function HeaderSize(h: Header, a: nat): nat {
    var c1 := Grow(a, 1, 1);
    var c2 := Grow(c1, 1, 1);
    var c3 := Grow(c2, 2, 2);
    var c4 := if CarriesKey(h) then Grow(c3, 1, 4) else c3;
    c4 - a
  }

  // A header whose session leaves the key out is parsed with the empty key.
  function ReadHeader(b: Buffer, p: nat): Read<Header> {
    var (session, p) :- ReadOctet(b, p);
    var (stream, p) :- ReadOctet(b, p);
    var (sequence, p) :- ReadShort(b, p);
    if 128 > session then var (key, p) :- ReadRaw(b, p, 4); Ok(Header(session, stream, sequence, key), p)
    else Ok(Header(session, stream, sequence, NO_KEY), p)
  }

  function OnWire(h: Header): Header {
    if CarriesKey(h) then h else h.(key := NO_KEY)
  }

  lemma HeaderSizeIsExact(h: Header)
    ensures End(0, HeaderItems(h)) == HeaderSize(h, 0) == if CarriesKey(h) then 8 else 4
  {
    hide Grow, End;
    GrowBytes(0, 1);
    GrowBytes(1, 1);
    GrowWord(2, 2);
    GrowBytes(4, 4);
    EndOfDone(4);
    EndOfDone(8);
    var k3 := if CarriesKey(h) then Put(Raw(h.key), Done) else Done;
    var k2 := Put(Short(h.sequence), k3);
    var c := CountsOctet(0, h.session, Put(Octet(h.stream), k2));
    c := CountsOctet(c, h.stream, k2);
    c := CountsShort(c, h.sequence, k3);
    if CarriesKey(h) {
      c := CountsRaw(c, h.key, Done);
    }
  }

  lemma HeaderReadsBack(b: Buffer, h: Header)
    requires Holds(b, 0, HeaderItems(h))
    ensures ReadHeader(b, 0) == Ok(OnWire(h), End(0, HeaderItems(h)))
  {
    hide Holds, End, ReadOctet, ReadShort, ReadRaw;
    var k3 := if CarriesKey(h) then Put(Raw(h.key), Done) else Done;
    var k2 := Put(Short(h.sequence), k3);
    var q := ReadsOctet(b, 0, h.session, Put(Octet(h.stream), k2));
    q := ReadsOctet(b, q, h.stream, k2);
    q := ReadsShort(b, q, h.sequence, k3);
    if CarriesKey(h) {
      q := ReadsRaw(b, q, h.key, Done);
    }
    EndOfDone(q);
  }

  function SubHeaderItems(s: SubHeader, rest: Items): Items {
    Put(Octet(s.id), Put(Octet(s.flags), Put(Short(s.length), rest)))
  }

  function SubHeaderSize(s: SubHeader, a: nat): nat {
    var c1 := Grow(a, 1, 1);
    var c2 := Grow(c1, 1, 1);
    var c3 := Grow(c2, 2, 2);
    c3 - a
  }

  function ReadSubHeader(b: Buffer, p: nat): Read<SubHeader> {
    var (id, p) :- ReadOctet(b, p);
    var (flags, p) :- ReadOctet(b, p);
    var (length, p) :- ReadShort(b, p);
    Ok(SubHeader(id, flags, length), p)
  }

  lemma SubHeaderSizeIsExact(s: SubHeader, a: nat, rest: Items)
    ensures End(a, SubHeaderItems(s, rest)) == End(a + SubHeaderSize(s, a), rest)
  {
    hide Grow, End;
    var k2 := Put(Short(s.length), rest);
    var c := CountsOctet(a, s.id, Put(Octet(s.flags), k2));
    c := CountsOctet(c, s.flags, k2);
    c := CountsShort(c, s.length, rest);
  }

  lemma SubHeaderReadsBack(b: Buffer, p: nat, s: SubHeader, rest: Items) returns (q: nat)
    requires Holds(b, p, SubHeaderItems(s, rest))
    ensures ReadSubHeader(b, p) == Ok(s, q) && Holds(b, q, rest)
    ensures End(p, SubHeaderItems(s, rest)) == End(q, rest)
  {
    hide Holds, End, ReadOctet, ReadShort;
    var k2 := Put(Short(s.length), rest);
    q := ReadsOctet(b, p, s.id, Put(Octet(s.flags), k2));
    q := ReadsOctet(b, q, s.flags, k2);
    q := ReadsShort(b, q, s.length, rest);
  }

  // ---------------------------------------------------------------- submessages

  // The length field is the payload's size cut to sixteen bits.
  function SubHeaderOf(s: Submessage): SubHeader {
    SubHeader(s.id, s.flags, PayloadSize(s.payload, 0) % 0x1_0000)
  }

  function SubmessageItems(s: Submessage): Items {
    Put(Jump4, SubHeaderItems(SubHeaderOf(s), PayloadItems(s.payload, Done)))
  }

  function SubmessagesEnd(p: nat, subs: seq<Submessage>): nat
    decreases |subs|
  {
    if subs == [] then p else SubmessagesEnd(End(p, SubmessageItems(subs[0])), subs[1..])
  }

  // The buffer holds the submessages one after the other.
  ghost predicate SubmessagesAt(b: Bytes, p: nat, subs: seq<Submessage>)
    decreases |subs|
  {
    subs != [] ==>
      && Holds(b, p, SubmessageItems(subs[0]))
      && SubmessagesAt(b, End(p, SubmessageItems(subs[0])), subs[1..])
  }

  function MessageEnd(h: Header, subs: seq<Submessage>): nat {
    SubmessagesEnd(End(0, HeaderItems(h)), subs)
  }

  ghost predicate MessageAt(b: Bytes, h: Header, subs: seq<Submessage>) {
    Holds(b, 0, HeaderItems(h)) && SubmessagesAt(b, End(0, HeaderItems(h)), subs)
  }

  lemma {:induction false} SubmessagesEndLater(p: nat, subs: seq<Submessage>)
    ensures SubmessagesEnd(p, subs) >= p
    decreases |subs|
  {
    if subs != [] {
      EndIsNotEarlier(p, SubmessageItems(subs[0]));
      SubmessagesEndLater(End(p, SubmessageItems(subs[0])), subs[1..]);
    }
  }

  lemma {:induction false} SubmessagesAppend(b: Bytes, p: nat, subs: seq<Submessage>, s: Submessage)
    ensures SubmessagesEnd(p, subs + [s]) == End(SubmessagesEnd(p, subs), SubmessageItems(s))
    ensures SubmessagesAt(b, p, subs) && Holds(b, SubmessagesEnd(p, subs), SubmessageItems(s))
            ==> SubmessagesAt(b, p, subs + [s])
    decreases |subs|
  {
    hide Holds, End, SubmessageItems;
    if subs == [] {
      assert subs + [s] == [s] && [s][1..] == [];
    } else {
      assert (subs + [s])[0] == subs[0] && (subs + [s])[1..] == subs[1..] + [s];
      SubmessagesAppend(b, End(p, SubmessageItems(subs[0])), subs[1..], s);
    }
  }

  lemma {:induction false} SubmessagesLocal(b: Bytes, b': Bytes, p: nat, subs: seq<Submessage>)
    requires SubmessagesAt(b, p, subs) && SubmessagesEnd(p, subs) <= |b'|
    requires forall i :: p <= i < SubmessagesEnd(p, subs) && i < |b| ==> b'[i] == b[i]
    ensures SubmessagesAt(b', p, subs)
    decreases |subs|
  {
    hide Holds, End, SubmessageItems;
    if subs != [] {
      var items := SubmessageItems(subs[0]);
      EndIsNotEarlier(p, items);
      SubmessagesEndLater(End(p, items), subs[1..]);
      HoldsLocally(b, b', p, items);
      SubmessagesLocal(b, b', End(p, items), subs[1..]);
    }
  }

  // A message stays in a buffer as long as its own bytes do.
  lemma MessageLocal(b: Bytes, b': Bytes, h: Header, subs: seq<Submessage>)
    requires MessageAt(b, h, subs) && MessageEnd(h, subs) <= |b'|
    requires forall i :: 0 <= i < MessageEnd(h, subs) && i < |b| ==> b'[i] == b[i]
    ensures MessageAt(b', h, subs)
  {
    hide Holds, End, HeaderItems;
    SubmessagesEndLater(End(0, HeaderItems(h)), subs);
    HoldsLocally(b, b', 0, HeaderItems(h));
    SubmessagesLocal(b, b', End(0, HeaderItems(h)), subs);
  }

  // ---------------------------------------------------------------- parsing messages

  // prepare_next_submessage: align if there is room, then parse a subheader if anything is left.
  function NextPosition(b: Buffer, p: nat): nat {
    if p + Padding(p, 4) <= |b| then p + Padding(p, 4) else p
  }

  function ReadNext(b: Buffer, p: nat): Read<SubHeader> {
    var q := NextPosition(b, p);
    if |b| > q then ReadSubHeader(b, q) else NotEnough
  }

  // Alternates prepare_next_submessage and get_payload, asking for the given payload types.
  function ReadAll(b: Buffer, p: nat, types: seq<PayloadType>): Read<seq<(SubHeader, Payload)>>
    decreases |types|
  {
    if types == [] then Ok([], p)
    else
      var (sub, p) :- ReadNext(b, p);
      var (payload, p) :- ReadPayload(b, p, types[0], sub.length);
      var (others, p) :- ReadAll(b, p, types[1..]);
      Ok([(sub, payload)] + others, p)
  }

  function TypesOf(subs: seq<Submessage>): seq<PayloadType> {
    seq(|subs|, i requires 0 <= i < |subs| => TypeOf(subs[i].payload))
  }

  function Received(subs: seq<Submessage>): seq<(SubHeader, Payload)> {
    seq(|subs|, i requires 0 <= i < |subs| => (SubHeaderOf(subs[i]), subs[i].payload))
  }

  // A payload the printer and parser agree on: raw data must fit the sixteen-bit length that delimits it.
  predicate Supported(v: Payload) {
    WellFormed(v) && (v.Data? ==> 4 + |v.data| < 0x1_0000)
  }

  lemma DataSize(v: Payload)
    requires v.Data?
    ensures PayloadSize(v, 0) == 4 + |v.data|
  {
  }

  lemma AfterJump(b: Buffer, p: nat, s: Submessage) returns (at: nat)
    requires Holds(b, p, SubmessageItems(s))
    ensures at == NextPosition(b, p) == p + Padding(p, 4) < |b|
    ensures Holds(b, at, SubHeaderItems(SubHeaderOf(s), PayloadItems(s.payload, Done)))
    ensures End(p, SubmessageItems(s)) == End(at, SubHeaderItems(SubHeaderOf(s), PayloadItems(s.payload, Done)))
  {
    hide PayloadItems, PayloadSize;
    var sub := SubHeaderOf(s);
    var k := SubHeaderItems(sub, PayloadItems(s.payload, Done));
    Stored(b, p, Jump4, k);
    at := p + Padding(p, 4);
    Stored(b, at, Octet(sub.id), Put(Octet(sub.flags), Put(Short(sub.length), PayloadItems(s.payload, Done))));
  }

  // One submessage is parsed back whole, and the cursor ends where the printer's did.
  lemma SubmessageReadsBack(b: Buffer, p: nat, s: Submessage) returns (mid: nat)
    requires Supported(s.payload) && Holds(b, p, SubmessageItems(s))
    ensures ReadNext(b, p) == Ok(SubHeaderOf(s), mid)
    ensures ReadPayload(b, mid, TypeOf(s.payload), SubHeaderOf(s).length) == Ok(s.payload, End(p, SubmessageItems(s)))
  {
    hide PayloadItems, PayloadSize, ReadPayload, ReadSubHeader, Holds, SubHeaderItems, NextPosition;
    var sub := SubHeaderOf(s);
    var at := AfterJump(b, p, s);
    mid := SubHeaderReadsBack(b, at, sub, PayloadItems(s.payload, Done));
    if s.payload.Data? {
      DataSize(s.payload);
    }
    var q := PayloadReadsBack(b, mid, s.payload, sub.length, Done);
  }

  lemma {:induction false} SubmessagesReadBack(b: Buffer, p: nat, subs: seq<Submessage>)
    requires SubmessagesAt(b, p, subs)
    requires forall i :: 0 <= i < |subs| ==> Supported(subs[i].payload)
    ensures ReadAll(b, p, TypesOf(subs)) == Ok(Received(subs), SubmessagesEnd(p, subs))
    decreases |subs|
  {
    hide Holds, End, SubmessageItems, ReadNext, ReadPayload, Supported, TypeOf, SubHeaderOf;
    if subs != [] {
      var mid := SubmessageReadsBack(b, p, subs[0]);
      SubmessagesReadBack(b, End(p, SubmessageItems(subs[0])), subs[1..]);
      assert TypesOf(subs)[1..] == TypesOf(subs[1..]);
      assert [Received(subs)[0]] + Received(subs[1..]) == Received(subs);
    }
  }

  /** Round trip: parsing the printed bytes of a message, up to where the printer stopped, gives back the
      header, as far as it is transmitted, and every subheader and payload in order, and then finds no
      further submessage. */
  lemma MessageRoundTrip(b: Buffer, h: Header, subs: seq<Submessage>)
    requires MessageAt(b, h, subs) && |b| == MessageEnd(h, subs)
    requires forall i :: 0 <= i < |subs| ==> Supported(subs[i].payload)
    ensures ReadHeader(b, 0) == Ok(OnWire(h), End(0, HeaderItems(h)))
    ensures ReadAll(b, End(0, HeaderItems(h)), TypesOf(subs)) == Ok(Received(subs), |b|)
    ensures !ReadNext(b, |b|).Ok?
  {
    HeaderReadsBack(b, h);
    SubmessagesReadBack(b, End(0, HeaderItems(h)), subs);
  }

  /** Raw data survives the round trip exactly while its length fits the sixteen bits that delimit it. */
  lemma DataRoundTripsIff(b: Buffer, p: nat, s: Submessage)
    requires s.payload.Data? && Holds(b, p, SubmessageItems(s))
    ensures (exists mid :: ReadNext(b, p) == Ok(SubHeaderOf(s), mid)
               && ReadPayload(b, mid, TData, SubHeaderOf(s).length) == Ok(s.payload, End(p, SubmessageItems(s))))
            <==> 4 + |s.payload.data| < 0x1_0000
  {
    hide PayloadItems, PayloadSize, SubmessageItems, ReadPayload, ReadNext, Holds, End;
    DataSize(s.payload);
    if 4 + |s.payload.data| < 0x1_0000 {
      var mid := SubmessageReadsBack(b, p, s);
    } else {
      var length := SubHeaderOf(s).length;
      assert length < 4 + |s.payload.data|;
      forall mid | ReadPayload(b, mid, TData, length).Ok?
        ensures ReadPayload(b, mid, TData, length).value != s.payload
      {
        DataReadHasLength(b, mid, length);
      }
    }
  }

  lemma DataReadHasLength(b: Buffer, mid: nat, length: u16)
    requires ReadPayload(b, mid, TData, length).Ok?
    ensures var v := ReadPayload(b, mid, TData, length).value; v.Data? && |v.data| == length - 4
  {
  }

  // ---------------------------------------------------------------- the printer

  class OutputMessage {
    const buf: array<u8>
    var pos: nat
    ghost const header: Header
    ghost var submessages: seq<Submessage>
    // Every operation so far succeeded.
    ghost var intact: bool

    ghost predicate Valid()
      reads this, buf
    {
      && pos <= buf.Length
      && (intact ==> MessageAt(buf[..], header, submessages) && pos == MessageEnd(header, submessages))
    }

    constructor (header: Header, len: nat)
      ensures Valid() && fresh(buf) && buf.Length == len
      ensures this.header == header && submessages == []
      ensures intact <==> HeaderSize(header, 0) <= len
    {
      hide Holds, End, HeaderItems, HeaderSize;
      buf := new u8[len](_ => 0);
      pos := 0;
      this.header := header;
      submessages, intact := [], false;
      new;
      var ok := Serialize(HeaderItems(header));
      HeaderSizeIsExact(header);
      intact := ok;
    }

    function GetLen(): nat
      reads this
    {
      pos
    }

    // One << on the serializer: align, then store, or throw without room.
    method PutItem(item: Item) returns (ok: bool)
      requires pos <= buf.Length
      modifies this`pos, buf
      ensures pos <= buf.Length
      ensures ok <==> After(old(pos), item) <= buf.Length
      ensures pos == if ok then After(old(pos), item) else old(pos)
      ensures ok ==> StoredAt(buf[..], Start(old(pos), item), Body(item))
      ensures forall i :: 0 <= i < old(pos) ==> buf[i] == old(buf[i])
    {
      var start, body := Start(pos, item), Body(item);
      ok := start + |body| <= buf.Length;
      if ok {
        forall i | 0 <= i < |body| {
          buf[start + i] := body[i];
        }
        assert buf[..][start..start + |body|] == body;
        pos := start + |body|;
      }
    }

    // serialize: the << operations of a type, up to the first that throws.
    method Serialize(items: Items) returns (ok: bool)
      requires pos <= buf.Length
      modifies this`pos, buf
      ensures old(pos) <= pos <= buf.Length
      ensures ok <==> End(old(pos), items) <= buf.Length
      ensures ok ==> pos == End(old(pos), items) && Holds(buf[..], old(pos), items)
      ensures forall i :: 0 <= i < old(pos) ==> buf[i] == old(buf[i])
      decreases items
    {
      ok := true;
      if items.Put? {
        var start, next := Start(pos, items.item), After(pos, items.item);
        EndIsNotEarlier(next, items.rest);
        ok := PutItem(items.item);
        if ok {
          ghost var before := buf[..];
          ok := Serialize(items.rest);
          if ok {
            assert buf[..][start..next] == before[start..next];
          }
        }
      }
    }

    /** append_submessage: false exactly when the message, extended, does not fit. */
    method AppendSubmessage(s: Submessage) returns (ok: bool)
      requires Valid()
      modifies this`pos, this`submessages, this`intact, buf
      ensures Valid()
      ensures old(intact) ==> (ok <==> MessageEnd(header, old(submessages) + [s]) <= buf.Length)
      ensures old(intact) && ok ==> intact && submessages == old(submessages) + [s]
      ensures !ok ==> !intact && submessages == old(submessages)
    {
      hide PayloadItems, SubmessageItems, HeaderItems, End, Holds;
      ghost var before, start := buf[..], End(0, HeaderItems(header));
      SubmessagesAppend(before, start, submessages, s);
      ok := Serialize(SubmessageItems(s));
      if ok && intact {
        SubmessagesEndLater(start, submessages);
        MessageLocal(before, buf[..], header, submessages);
        SubmessagesAppend(buf[..], start, submessages, s);
        submessages := submessages + [s];
      } else {
        intact := false;
      }
    }
  }

  // ---------------------------------------------------------------- the parser

  class InputMessage {
    const buf: Buffer
    var pos: nat
    var header: Header
    var subheader: SubHeader

    /** The constructor parses the header; when that throws, the header keeps its default. */
    constructor (buf: Buffer)
      ensures this.buf == buf
      ensures ReadHeader(buf, 0).Ok? ==> header == ReadHeader(buf, 0).value && pos == ReadHeader(buf, 0).pos
    {
      this.buf := buf;
      pos, header, subheader := 0, Header(0, 0, 0, NO_KEY), SubHeader(0, 0, 0);
      new;
      var r := ReadHeader(buf, 0);
      if r.Ok? {
        header, pos := r.value, r.pos;
      }
    }

    method PrepareNextSubmessage() returns (ok: bool)
      modifies this`pos, this`subheader
      ensures ok == ReadNext(buf, old(pos)).Ok?
      ensures ok ==> subheader == ReadNext(buf, old(pos)).value && pos == ReadNext(buf, old(pos)).pos
    {
      if pos + Padding(pos, 4) <= |buf| {
        pos := pos + Padding(pos, 4);
      }
      ok := false;
      if |buf| > pos {
        var r := ReadSubHeader(buf, pos);
        if r.Ok? {
          subheader, pos, ok := r.value, r.pos, true;
        }
      }
    }

    method GetPayload(t: PayloadType) returns (r: Read<Payload>)
      modifies this`pos
      ensures r == ReadPayload(buf, old(pos), t, subheader.length)
      ensures pos == if r.Ok? then r.pos else old(pos)
    {
      r := ReadPayload(buf, pos, t, subheader.length);
      if r.Ok? {
        pos := r.pos;
      }
    }
  }

  // Prints a header and submessages into a buffer of the given length, and hands over get_len() bytes of it.
  method Send(h: Header, subs: seq<Submessage>, len: nat) returns (sent: bool, bytes: Bytes)
    ensures sent <==> MessageEnd(h, subs) <= len
    ensures sent ==> MessageAt(bytes, h, subs) && |bytes| == MessageEnd(h, subs)
  {
    hide End, HeaderItems, SubmessageItems, SubmessagesEnd, MessageAt, HeaderSize;
    var out := new OutputMessage(h, len);
    HeaderSizeIsExact(h);
    SubmessagesEndLater(End(0, HeaderItems(h)), subs);
    if HeaderSize(h, 0) > len {
      return false, [];
    }
    for i := 0 to |subs|
      invariant out.Valid() && out.intact && out.header == h && out.submessages == subs[..i] && out.buf.Length == len
      invariant fresh(out) && fresh(out.buf)
    {
      assert subs[..i] + [subs[i]] == subs[..i + 1];
      PrefixEndsEarlier(h, subs, i + 1);
      sent := out.AppendSubmessage(subs[i]);
      if !sent {
        return false, [];
      }
    }
    assert subs[..|subs|] == subs;
    sent, bytes := true, out.buf[..out.GetLen()];
    MessageLocal(out.buf[..], bytes, h, subs);
  }

  // Parses a message, asking for the given payload types in turn; more tells whether a submessage is left.
  method Receive(bytes: Buffer, types: seq<PayloadType>)
    returns (header: Header, received: seq<(SubHeader, Payload)>, more: bool)
    ensures ReadHeader(bytes, 0).Ok? && ReadAll(bytes, ReadHeader(bytes, 0).pos, types).Ok? ==>
              && header == ReadHeader(bytes, 0).value
              && received == ReadAll(bytes, ReadHeader(bytes, 0).pos, types).value
              && more == ReadNext(bytes, ReadAll(bytes, ReadHeader(bytes, 0).pos, types).pos).Ok?
  {
    hide ReadPayload, ReadNext, ReadHeader;
    var input := new InputMessage(bytes);
    header, received := input.header, [];
    more := false;
    ghost var start := input.pos;
    assert types[0..] == types;
    PrependNone(ReadAll(bytes, start, types));
    for i := 0 to |types|
      invariant fresh(input) && input.buf == bytes && input.header == header
      invariant ReadAll(bytes, start, types) == Prepend(received, ReadAll(bytes, input.pos, types[i..]))
    {
      assert types[i..][0] == types[i] && types[i..][1..] == types[i + 1..];
      var ok := input.PrepareNextSubmessage();
      if !ok {
        return;
      }
      var r := input.GetPayload(types[i]);
      if !r.Ok? {
        return;
      }
      PrependOne(received, (input.subheader, r.value), ReadAll(bytes, input.pos, types[i + 1..]));
      received := received + [(input.subheader, r.value)];
    }
    assert types[|types|..] == [];
    assert received + [] == received;
    more := input.PrepareNextSubmessage();
  }

  function Prepend(before: seq<(SubHeader, Payload)>, r: Read<seq<(SubHeader, Payload)>>)
    : Read<seq<(SubHeader, Payload)>>
  {
    if r.Ok? then Ok(before + r.value, r.pos) else r
  }

  lemma PrependNone(r: Read<seq<(SubHeader, Payload)>>)
    ensures Prepend([], r) == r
  {
    if r.Ok? {
      assert [] + r.value == r.value;
    }
  }

  lemma PrependOne(before: seq<(SubHeader, Payload)>, one: (SubHeader, Payload), r: Read<seq<(SubHeader, Payload)>>)
    ensures r.Ok? ==> Prepend(before, Ok([one] + r.value, r.pos)) == Prepend(before + [one], r)
  {
    if r.Ok? {
      assert before + ([one] + r.value) == before + [one] + r.value;
    }
  }

  /** The round trip through the two classes: a message is sent exactly when it fits the buffer, and what
      is sent is received: the header as far as it is transmitted, the subheaders and the payloads in
      order, and then no more. */
  method Transmit(h: Header, subs: seq<Submessage>, len: nat)
    returns (sent: bool, header: Header, received: seq<(SubHeader, Payload)>, more: bool)
    requires len < 0xFFFF_FFFF
    requires forall i :: 0 <= i < |subs| ==> Supported(subs[i].payload)
    ensures sent <==> MessageEnd(h, subs) <= len
    ensures sent ==> header == OnWire(h) && received == Received(subs) && !more
  {
    hide MessageEnd, MessageAt, Supported, ReadNext, ReadAll, ReadHeader;
    var bytes;
    sent, bytes := Send(h, subs, len);
    header, received, more := h, [], false;
    if sent {
      MessageRoundTrip(bytes, h, subs);
      header, received, more := Receive(bytes, TypesOf(subs));
    }
  }

  lemma PrefixEndsEarlier(h: Header, subs: seq<Submessage>, n: nat)
    requires n <= |subs|
    ensures MessageEnd(h, subs[..n]) <= MessageEnd(h, subs)
  {
    SubmessagesSplit(End(0, HeaderItems(h)), subs, n);
    SubmessagesEndLater(MessageEnd(h, subs[..n]), subs[n..]);
  }

  lemma {:induction false} SubmessagesSplit(p: nat, subs: seq<Submessage>, n: nat)
    requires n <= |subs|
    ensures SubmessagesEnd(p, subs) == SubmessagesEnd(SubmessagesEnd(p, subs[..n]), subs[n..])
    decreases n
  {
    hide End, SubmessageItems;
    if n == 0 {
      assert subs[0..] == subs;
    } else {
      assert subs[..n][0] == subs[0] && subs[..n][1..] == subs[1..][..n - 1];
      assert subs[1..][n - 1..] == subs[n..];
      SubmessagesSplit(End(p, SubmessageItems(subs[0])), subs[1..], n - 1);
    }
  }

  // ---------------------------------------------------------------- replies with hand-sized buffers

  // header.getCdrSerializedSize() + subheader.getCdrSerializedSize() + payload.getCdrSerializedSize()
  function ReplySize(sized: Header, s: Submessage): nat {
    HeaderSize(sized, 0) + SubHeaderSize(SubHeaderOf(s), 0) + PayloadSize(s.payload, 0)
  }

  /** A payload's size depends on the offset only modulo 4: computed at one offset it is what the payload
      takes at any offset a multiple of four further on, so the size at 0 holds after any header. */
  lemma SizeDependsOnAlignment(v: Payload, a: nat, k: nat)
    requires Tracked(v, a)
    ensures End(a + 4 * k, PayloadItems(v, Done)) == a + 4 * k + PayloadSize(v, a)
  {
    hide PayloadItems, PayloadSize;
    PayloadSizeIsExact(v, a, Done);
    EndShifts(a, k, PayloadItems(v, Done));
  }

  lemma ReplyEnd(h: Header, s: Submessage)
    requires Tracked(s.payload, 0)
    ensures MessageEnd(h, [s]) == HeaderSize(h, 0) + 4 + PayloadSize(s.payload, 0)
    ensures SubHeaderSize(SubHeaderOf(s), 0) == 4
  {
    hide PayloadItems, PayloadSize, HeaderSize, SubHeaderSize, SubHeaderOf, Grow, End, HeaderItems;
    HeaderSizeIsExact(h);
    var a := HeaderSize(h, 0);
    var end := End(a, SubmessageItems(s));
    assert [s][1..] == [];
    assert SubmessagesEnd(a, [s]) == SubmessagesEnd(end, []) == end;
    JumpOnAligned(a, SubHeaderItems(SubHeaderOf(s), PayloadItems(s.payload, Done)));
    SubHeaderSizeIsFour(SubHeaderOf(s), a);
    SubHeaderSizeIsFour(SubHeaderOf(s), 0);
    SubHeaderSizeIsExact(SubHeaderOf(s), a, PayloadItems(s.payload, Done));
    SizeDependsOnAlignment(s.payload, 0, if CarriesKey(h) then 3 else 2);
  }

  lemma SubHeaderSizeIsFour(s: SubHeader, a: nat)
    requires a % 4 == 0
    ensures SubHeaderSize(s, a) == 4
  {
  }

  /** A hand-sized buffer makes the append succeed exactly when the header it was sized with carries the key
      if the header sent does; the message fills it exactly when both do or neither does. */
  lemma ReplyFits(sized: Header, h: Header, s: Submessage)
    requires Tracked(s.payload, 0)
    ensures MessageEnd(h, [s]) <= ReplySize(sized, s) <==> (CarriesKey(h) ==> CarriesKey(sized))
    ensures MessageEnd(h, [s]) == ReplySize(sized, s) <==> CarriesKey(sized) == CarriesKey(h)
  {
    hide PayloadSize, SubHeaderSize, SubHeaderOf;
    ReplyEnd(h, s);
    HeaderSizeIsExact(h);
    HeaderSizeIsExact(sized);
  }

  const STATUS_AGENT: u8 := 4
  const STATUS: u8 := 5
  const INFO: u8 := 6
  const ACKNACK: u8 := 10
  const HEARTBEAT: u8 := 11
  const FLAG_LITTLE_ENDIANNESS: u8 := 1

  // The agent's representation as create_client and get_info fill it in: no properties.
  const AGENT_REPRESENTATION := AgentRep([0x58, 0x52, 0x43, 0x45], [0x01, 0x00], [0x01, 0x0F], None)

  // The header check_heartbeats sizes its buffer with, before the session of any client is put in.
  const DEFAULT_HEADER := Header(0, 0, 0, NO_KEY)

  datatype Reply =
    | AcknackReply(acknack: AckNack)
    | StatusAgentReply(result: ResultStatus)
    | StatusReply(request: Request, result: ResultStatus)
    | InfoReply(request: Request, result: ResultStatus, addresses: seq<TransportAddress>)
    | HeartbeatReply(heartbeat: Heartbeat)

  // The submessages the processor builds its replies of.
  function ReplySubmessage(r: Reply): Submessage {
    match r
    case AcknackReply(v) => Submessage(ACKNACK, FLAG_LITTLE_ENDIANNESS, Acknack(v))
    case StatusAgentReply(result) =>
      Submessage(STATUS_AGENT, FLAG_LITTLE_ENDIANNESS, StatusAgent(result, AGENT_REPRESENTATION))
    case StatusReply(request, result) => Submessage(STATUS, FLAG_LITTLE_ENDIANNESS, Status(request, result))
    case InfoReply(request, result, addresses) =>
      Submessage(INFO, FLAG_LITTLE_ENDIANNESS,
                 Info(request, result, ObjectInfo(Some(AgentObject(AGENT_REPRESENTATION)),
                                                  Some(ActivityOfAgent(AgentActivity(1, addresses))))))
    case HeartbeatReply(v) => Submessage(HEARTBEAT, FLAG_LITTLE_ENDIANNESS, Beat(v))
  }

  // Heartbeat buffers are sized once, with the default header; every other reply with its own.
  function SizedHeader(r: Reply, h: Header): Header {
    if r.HeartbeatReply? then DEFAULT_HEADER else h
  }

  lemma TrackedReply(r: Reply)
    ensures Tracked(ReplySubmessage(r).payload, 0)
  {
  }

  lemma ReplyHoldsHeader(sized: Header, h: Header, s: Submessage)
    requires CarriesKey(h) ==> CarriesKey(sized)
    ensures HeaderSize(h, 0) <= ReplySize(sized, s)
  {
  }

  /** The processor's replies: with any header, the buffer sized for the reply takes it. */
  method BuildReply(r: Reply, h: Header) returns (out: OutputMessage, ok: bool)
    ensures ok && fresh(out) && fresh(out.buf) && out.Valid() && out.intact
    ensures out.header == h && out.submessages == [ReplySubmessage(r)]
    ensures out.buf.Length == ReplySize(SizedHeader(r, h), ReplySubmessage(r))
    ensures !r.HeartbeatReply? ==> out.GetLen() == out.buf.Length
  {
    hide MessageAt, MessageEnd, ReplySize, HeaderSize, Tracked;
    TrackedReply(r);
    var s := ReplySubmessage(r);
    var sized := SizedHeader(r, h);
    ReplyFits(sized, h, s);
    ReplyHoldsHeader(sized, h, s);
    out := new OutputMessage(h, ReplySize(sized, s));
    assert [] + [s] == [s];
    ok := out.AppendSubmessage(s);
  }
}
