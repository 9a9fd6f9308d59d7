/** Packing of object ids and client keys into numbers. */
module Conversions {
  import opened Words

  // Two bytes: twelve bits of prefix, four bits of kind.
  datatype ObjectId = ObjectId(hi: u8, lo: u8)

  datatype KeyBytes = KeyBytes(b0: u8, b1: u8, b2: u8, b3: u8)

  function KindOf(id: ObjectId): (kind: u8)
    ensures kind < 16
  {
    id.lo % 16
  }

  function ObjectIdToRaw(id: ObjectId): (raw: u16)
    ensures raw < 4096
  {
    id.lo / 16 + id.hi * 16
  }

  function RawToObjectId(raw: u16, kind: u8): ObjectId
    requires kind < 16
  {
    ObjectId((raw / 16) % 256, (raw * 16) % 256 + kind)
  }

  // The id an object gets: the prefix it was created under with the kind of its representation.
  function WithKind(prefix: ObjectId, kind: u8): (id: ObjectId)
    requires kind < 16
    ensures KindOf(id) == kind && ObjectIdToRaw(id) == ObjectIdToRaw(prefix)
  {
    ObjectId(prefix.hi, prefix.lo / 16 * 16 + kind)
  }

  function ClientKeyToRaw(k: KeyBytes): u32 {
    k.b0 * 0x100_0000 + k.b1 * 0x1_0000 + k.b2 * 0x100 + k.b3
  }

  function RawToClientKey(raw: u32): KeyBytes {
    KeyBytes(raw / 0x100_0000, raw / 0x1_0000 % 256, raw / 0x100 % 256, raw % 256)
  }

  // std::array comparison: the first differing byte decides.
  predicate Precedes(a: KeyBytes, b: KeyBytes) {
    a.b0 < b.b0 || (a.b0 == b.b0 &&
    (a.b1 < b.b1 || (a.b1 == b.b1 &&
    (a.b2 < b.b2 || (a.b2 == b.b2 && a.b3 < b.b3)))))
  }

  lemma ObjectIdFromRaw(id: ObjectId)
    ensures RawToObjectId(ObjectIdToRaw(id), KindOf(id)) == id
  {
  }

  lemma CutToByte(q: int, r: int)
    requires 0 <= r < 256
    ensures (q * 256 + r) % 256 == r
  {
  }

  lemma NibbleThenKind(q: int, kind: int)
    requires 0 <= q < 16 && 0 <= kind < 16
    ensures (q * 16 + kind) / 16 == q && (q * 16 + kind) % 16 == kind
  {
  }

  lemma RawFromObjectId(raw: u16, kind: u8)
    requires raw < 4096 && kind < 16
    ensures ObjectIdToRaw(RawToObjectId(raw, kind)) == raw && KindOf(RawToObjectId(raw, kind)) == kind
  {
    var hi, lo := raw / 16, raw % 16;
    assert raw * 16 == hi * 256 + lo * 16;
    CutToByte(hi, lo * 16);
    CutToByte(0, hi);
    NibbleThenKind(lo, kind);
    assert RawToObjectId(raw, kind) == ObjectId(hi, lo * 16 + kind);
  }

  /** An object id is exactly a twelve-bit raw id and a kind: packing and unpacking are inverse in
      both directions, so the object table may be keyed by either. */
  lemma ObjectIdsAreRawIdsWithKinds(a: ObjectId, b: ObjectId, raw: u16, kind: u8)
    requires raw < 4096 && kind < 16
    ensures a == b <==> ObjectIdToRaw(a) == ObjectIdToRaw(b) && KindOf(a) == KindOf(b)
    ensures exists id :: ObjectIdToRaw(id) == raw && KindOf(id) == kind
  {
    hide RawToObjectId, ObjectIdToRaw, KindOf;
    ObjectIdFromRaw(a);
    ObjectIdFromRaw(b);
    RawFromObjectId(raw, kind);
  }

  /** Raw ids order like the prefixes they are packed from, which with the correspondence fixes every one. */
  lemma RawIdsAreOrderedPrefixes(a: ObjectId, b: ObjectId)
    ensures ObjectIdToRaw(a) < ObjectIdToRaw(b) <==> a.hi < b.hi || (a.hi == b.hi && a.lo / 16 < b.lo / 16)
    ensures ObjectIdToRaw(a) == ObjectIdToRaw(b) <==> a.hi == b.hi && a.lo / 16 == b.lo / 16
  {
  }

  /** An id and a key, written out. */
  lemma PackedExamples()
    ensures ObjectIdToRaw(ObjectId(0x12, 0x34)) == 0x123 && KindOf(ObjectId(0x12, 0x34)) == 0x4
    ensures RawToObjectId(0x123, 0x4) == ObjectId(0x12, 0x34)
    ensures ClientKeyToRaw(KeyBytes(0xAA, 0xBB, 0xCC, 0xDD)) == 0xAABB_CCDD
  {
  }

  lemma BytesOfNumber(b: int, low: int)
    requires 0 <= low < 256
    ensures (b * 256 + low) / 256 == b && (b * 256 + low) % 256 == low
  {
  }

  lemma DivideTwice(r: int, m: int)
    requires 0 <= r && (m == 0x100 || m == 0x1_0000)
    ensures r / m / 256 == r / (m * 256)
  {
  }

  lemma KeyFromRaw(a: KeyBytes)
    ensures RawToClientKey(ClientKeyToRaw(a)) == a
  {
    var r := ClientKeyToRaw(a);
    var top := a.b0 * 0x100 + a.b1;
    BytesOfNumber(top * 256 + a.b2, a.b3);
    BytesOfNumber(top, a.b2);
    BytesOfNumber(a.b0, a.b1);
    DivideTwice(r, 0x100);
    DivideTwice(r, 0x1_0000);
  }

  lemma RawFromKey(raw: u32)
    ensures ClientKeyToRaw(RawToClientKey(raw)) == raw
  {
    DivideTwice(raw, 0x100);
    DivideTwice(raw, 0x1_0000);
  }

  lemma OrderOfKeys(a: KeyBytes, b: KeyBytes)
    ensures Precedes(a, b) <==> ClientKeyToRaw(a) < ClientKeyToRaw(b)
  {
  }

  /** Client keys and their raw numbers correspond one to one, and the order of std::map over the
      byte arrays is the order of the numbers. */
  lemma ClientKeysAreOrderedNumbers(a: KeyBytes, b: KeyBytes, raw: u32)
    ensures a == b <==> ClientKeyToRaw(a) == ClientKeyToRaw(b)
    ensures ClientKeyToRaw(RawToClientKey(raw)) == raw
    ensures Precedes(a, b) <==> ClientKeyToRaw(a) < ClientKeyToRaw(b)
  {
    hide ClientKeyToRaw, RawToClientKey, Precedes;
    KeyFromRaw(a);
    KeyFromRaw(b);
    RawFromKey(raw);
    OrderOfKeys(a, b);
  }
}
