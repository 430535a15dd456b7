/** Shreds as they lie on the wire, field after field, written independently of the parser,
    and the proof that parsing (parser.go, variant.go) reads exactly these fields. */
module Packets {
  import opened Wire
  import opened Shreds

  /** The fields every shred starts with; the variant byte comes after the signature. */
  datatype Common = Common(signature: Bytes, slot: nat, index: nat, version: nat, fecSetIndex: nat)

  ghost predicate CommonOk(c: Common) {
    && |c.signature| == 64 && c.slot < Exp256(8) && c.index < Exp256(4)
    && c.version < Exp256(2) && c.fecSetIndex < Exp256(4)
  }

  function CommonBytes(c: Common, kind: Byte): Bytes {
    c.signature + [kind] + LittleEndianBytes(c.slot, 8) + LittleEndianBytes(c.index, 4)
    + LittleEndianBytes(c.version, 2) + LittleEndianBytes(c.fecSetIndex, 4)
  }

  function CodePacket(c: Common, kind: Byte, numData: nat, numCoding: nat, position: nat, body: Bytes): Bytes {
    CommonBytes(c, kind) + LittleEndianBytes(numData, 2) + LittleEndianBytes(numCoding, 2)
    + LittleEndianBytes(position, 2) + body
  }

  function DataPacket(c: Common, kind: Byte, parentOffset: nat, flags: Byte, size: nat, body: Bytes): Bytes {
    CommonBytes(c, kind) + LittleEndianBytes(parentOffset, 2) + [flags] + LittleEndianBytes(size, 2) + body
  }

  /** The variants there are: legacy shreds carry no Merkle proof, others one of up to 15 nodes. */
  predicate GoodVariant(v: Variant) {
    v.proofSize < 16 && (v.kind == DataLegacy || v.kind == CodeLegacy ==> v.proofSize == 0 && !v.resigned)
  }

  function VariantByte(v: Variant): Byte
    requires GoodVariant(v)
  {
    ByteOf(match v.kind
           case DataLegacy => 0xA5
           case CodeLegacy => 0x5A
           case CodeMerkle => (if v.resigned then 0x70 else 0x60) + v.proofSize
           case DataMerkle => (if v.resigned then 0xB0 else 0x90) + v.proofSize)
  }

  predicate IsCode(v: Variant) {
    v.kind == CodeLegacy || v.kind == CodeMerkle
  }

  /** The bytes at the end of a packet that are not coded: a root of 32 bytes, a proof of
      20-byte nodes and, if the shred was resigned, a signature of 64. */
  ghost predicate MerkleData(v: Variant, merkle: Bytes) {
    if v.kind == DataLegacy || v.kind == CodeLegacy then merkle == []
    else |merkle| == 32 + 20 * v.proofSize + if v.resigned then 64 else 0
  }

  // ---------------------------------------------------------------------------
  // Variants

  lemma VariantRoundTrip(v: Variant)
    requires GoodVariant(v)
    ensures ClassifyVariant(VariantByte(v)) == Known(v)
  {
    hide Value, ByteOf;
    ValueOfByte(match v.kind
                case DataLegacy => 0xA5
                case CodeLegacy => 0x5A
                case CodeMerkle => (if v.resigned then 0x70 else 0x60) + v.proofSize
                case DataMerkle => (if v.resigned then 0xB0 else 0x90) + v.proofSize);
  }

  lemma KnownIsGood(b: Byte)
    requires ClassifyVariant(b).Known?
    ensures GoodVariant(ClassifyVariant(b).variant) && VariantByte(ClassifyVariant(b).variant) == b
  {
    Galois.FromIndexRoundTrip(b);
  }

  // ---------------------------------------------------------------------------
  // Fields

  lemma {:induction false} FieldAt(pre: Bytes, v: nat, n: nat, rest: Bytes, raw: Bytes)
    requires v < Exp256(n) && raw == Around(pre, LittleEndianBytes(v, n), rest)
    ensures |raw| == |pre| + n + |rest| && LittleEndian(raw, |pre|, n) == v
  {
    hide LittleEndian, LittleEndianBytes, Exp256;
    LittleEndianRoundTrip(v, n);
    LittleEndianEmbeds(pre, LittleEndianBytes(v, n), rest, 0, n);
  }

  lemma CommonFields(c: Common, kind: Byte, rest: Bytes)
    requires CommonOk(c)
    ensures var raw := CommonBytes(c, kind) + rest;
            && |raw| == 0x53 + |rest| && raw[0x40] == kind && raw[0x53..] == rest
            && LittleEndian(raw, 0x41, 8) == c.slot && LittleEndian(raw, 0x49, 4) == c.index
            && LittleEndian(raw, 0x4D, 2) == c.version && LittleEndian(raw, 0x4F, 4) == c.fecSetIndex
  {
    hide LittleEndian, LittleEndianBytes, Exp256;
    var raw := CommonBytes(c, kind) + rest;
    var a, b := LittleEndianBytes(c.slot, 8), LittleEndianBytes(c.index, 4);
    var d, e := LittleEndianBytes(c.version, 2), LittleEndianBytes(c.fecSetIndex, 4);
    var s := c.signature + [kind];
    FieldAt(s, c.slot, 8, b + d + e + rest, raw);
    FieldAt(s + a, c.index, 4, d + e + rest, raw);
    FieldAt(s + a + b, c.version, 2, e + rest, raw);
    FieldAt(s + a + b + d, c.fecSetIndex, 4, rest, raw);
  }

  lemma CodeFields(c: Common, kind: Byte, numData: nat, numCoding: nat, position: nat, body: Bytes)
    requires CommonOk(c) && numData < Exp256(2) && numCoding < Exp256(2) && position < Exp256(2)
    ensures var raw := CodePacket(c, kind, numData, numCoding, position, body);
            && |raw| == 0x59 + |body| && raw[0x59..] == body && LittleEndian(raw, 0x53, 2) == numData
            && LittleEndian(raw, 0x55, 2) == numCoding && LittleEndian(raw, 0x57, 2) == position
  {
    hide LittleEndian, LittleEndianBytes, Exp256, CommonBytes;
    var h := CommonBytes(c, kind);
    CommonFields(c, kind, []);
    assert h + [] == h;
    var raw := CodePacket(c, kind, numData, numCoding, position, body);
    var n, m, p := LittleEndianBytes(numData, 2), LittleEndianBytes(numCoding, 2), LittleEndianBytes(position, 2);
    FieldAt(h, numData, 2, m + p + body, raw);
    FieldAt(h + n, numCoding, 2, p + body, raw);
    FieldAt(h + n + m, position, 2, body, raw);
  }

  lemma DataFields(c: Common, kind: Byte, parentOffset: nat, flags: Byte, size: nat, body: Bytes)
    requires CommonOk(c) && parentOffset < Exp256(2) && size < Exp256(2)
    ensures var raw := DataPacket(c, kind, parentOffset, flags, size, body);
            && |raw| == 0x58 + |body| && raw[0x58..] == body && raw[0x55] == flags
            && LittleEndian(raw, 0x53, 2) == parentOffset && LittleEndian(raw, 0x56, 2) == size
  {
    hide LittleEndian, LittleEndianBytes, Exp256, CommonBytes;
    var h := CommonBytes(c, kind);
    CommonFields(c, kind, []);
    assert h + [] == h;
    var raw := DataPacket(c, kind, parentOffset, flags, size, body);
    var p, z := LittleEndianBytes(parentOffset, 2), LittleEndianBytes(size, 2);
    FieldAt(h, parentOffset, 2, [flags] + z + body, raw);
    FieldAt(h + p + [flags], size, 2, body, raw);
  }

  // ---------------------------------------------------------------------------
  // Code packets

  /** What parsing a code packet gives, whatever follows the header. */
  lemma CodeParses(c: Common, v: Variant, numData: nat, numCoding: nat, position: nat, body: Bytes)
    requires CommonOk(c) && GoodVariant(v) && IsCode(v)
    requires numData < Exp256(2) && numCoding < Exp256(2) && position < Exp256(2)
    ensures var raw := CodePacket(c, VariantByte(v), numData, numCoding, position, body);
            ParseKind(raw) ==
            if numData == 0 || numCoding == 0 || position >= numCoding || MerkleSuffix(v) >= |raw|
            then Unparseable(PayloadInvalid)
            else Shred(CodeShred(c.slot, c.index, c.version, c.fecSetIndex, numData, numCoding, position,
                                 raw[..|raw| - MerkleSuffix(v)], v))
  {
    hide LittleEndian, LittleEndianBytes, Exp256, CommonBytes, ClassifyVariant, VariantByte, MerkleSuffix;
    VariantRoundTrip(v);
    CodeFields(c, VariantByte(v), numData, numCoding, position, body);
    CommonFields(c, VariantByte(v), LittleEndianBytes(numData, 2) + LittleEndianBytes(numCoding, 2)
                                    + LittleEndianBytes(position, 2) + body);
    assert CodePacket(c, VariantByte(v), numData, numCoding, position, body)
        == CommonBytes(c, VariantByte(v)) + (LittleEndianBytes(numData, 2) + LittleEndianBytes(numCoding, 2)
                                             + LittleEndianBytes(position, 2) + body);
  }

  /** A code packet with plausible counts parses to the fields it was written from, and what
      is kept of it is everything but its Merkle data. */
  lemma CodePacketRoundTrip(c: Common, v: Variant, numData: nat, numCoding: nat, position: nat, body: Bytes,
                            merkle: Bytes)
    requires CommonOk(c) && GoodVariant(v) && IsCode(v) && MerkleData(v, merkle)
    requires 0 < numData < Exp256(2) && position < numCoding < Exp256(2)
    ensures ParseKind(CodePacket(c, VariantByte(v), numData, numCoding, position, body + merkle))
         == Shred(CodeShred(c.slot, c.index, c.version, c.fecSetIndex, numData, numCoding, position,
                            CodePacket(c, VariantByte(v), numData, numCoding, position, body), v))
  {
    hide LittleEndian, LittleEndianBytes, Exp256, CommonBytes, VariantByte;
    CodeParses(c, v, numData, numCoding, position, body + merkle);
    var raw := CodePacket(c, VariantByte(v), numData, numCoding, position, body + merkle);
    assert raw == CodePacket(c, VariantByte(v), numData, numCoding, position, body) + merkle;
  }

  /** Without counts, or at a position beyond them, a code packet is refused. */
  lemma CodePacketRefused(c: Common, v: Variant, numData: nat, numCoding: nat, position: nat, body: Bytes,
                          merkle: Bytes)
    requires CommonOk(c) && GoodVariant(v) && IsCode(v) && MerkleData(v, merkle)
    requires numData < Exp256(2) && numCoding < Exp256(2) && position < Exp256(2)
    requires numData == 0 || position >= numCoding
    ensures ParseKind(CodePacket(c, VariantByte(v), numData, numCoding, position, body + merkle))
         == Unparseable(PayloadInvalid)
  {
    hide LittleEndian, LittleEndianBytes, Exp256, CommonBytes, VariantByte;
    CodeParses(c, v, numData, numCoding, position, body + merkle);
  }

  /** Header, protected region and Merkle data make up a code packet of 1228 bytes, and the
      slice that recovery takes of the part that is kept is the region in between. */
  lemma CodeSliceIsBody(c: Common, v: Variant, numData: nat, numCoding: nat, position: nat, body: Bytes,
                        merkle: Bytes)
    requires CommonOk(c) && GoodVariant(v) && v.kind == CodeMerkle && MerkleData(v, merkle)
    requires numData < Exp256(2) && numCoding < Exp256(2) && position < Exp256(2)
    requires |CodePacket(c, VariantByte(v), numData, numCoding, position, body + merkle)| == 1228
    ensures CodeShardSlice(CodePacket(c, VariantByte(v), numData, numCoding, position, body), v) == Slice(body)
    ensures 0x59 + ShardSize(v) + MerkleSuffix(v) == 1228
  {
    hide LittleEndian, LittleEndianBytes, Exp256, CommonBytes, VariantByte;
    CodeFields(c, VariantByte(v), numData, numCoding, position, body);
    CodeFields(c, VariantByte(v), numData, numCoding, position, body + merkle);
    var kept := CodePacket(c, VariantByte(v), numData, numCoding, position, body);
    assert kept[0x59..0x59 + |body|] == kept[0x59..];
  }

  /** Of a data packet of 1203 bytes the code protects all but signature and Merkle data. */
  lemma DataSliceIsMiddle(v: Variant, signature: Bytes, body: Bytes, merkle: Bytes)
    requires GoodVariant(v) && v.kind == DataMerkle && MerkleData(v, merkle)
    requires |signature| == 64 && |signature + body + merkle| == 1203
    ensures DataShardSlice(signature + body + merkle, v) == Slice(body)
  {
    var raw := signature + body + merkle;
    assert raw[64..64 + |body|] == body;
  }

  // ---------------------------------------------------------------------------
  // Data packets

  /** The flag byte: six bits of tick, bit 6 ends a batch, and bit 7 with bit 6 ends the slot. */
  function FlagsByte(tick: Byte, bit6: bool, bit7: bool): Byte {
    tick | (if bit6 then 0x40 else 0) | (if bit7 then 0x80 else 0)
  }

  lemma FlagsRead(tick: Byte, bit6: bool, bit7: bool)
    requires tick < 0x40
    ensures FlagsByte(tick, bit6, bit7) & 0x40 != 0 <==> bit6
    ensures FlagsByte(tick, bit6, bit7) & 0xC0 == 0xC0 <==> bit6 && bit7
  {}

  /** The first `size` bytes of the packet without the header; none if the size is smaller. */
  function Sized(body: Bytes, size: nat): Bytes
    requires size <= 0x58 + |body|
  {
    if size > 0x58 then body[..size - 0x58] else []
  }

  lemma SizedPayload(raw: Bytes, body: Bytes, size: nat)
    requires |raw| == 0x58 + |body| && raw[0x58..] == body && size <= |raw|
    ensures DataPayload(raw, size) == Sized(body, size)
  {
    if size > 0x58 {
      assert raw[0x58..size] == raw[0x58..][..size - 0x58];
    }
  }

  /** A shred without the fields that only a plausible header has. */
  function Fallback(c: Common, payload: Bytes, bit6: bool, bit7: bool, rawLen: nat): Shred {
    DataShred(c.slot, c.index, 0, c.index, 0, payload, bit6, bit6 && bit7, Variant(DataLegacy, 0, false), rawLen)
  }

  /** What parsing a data packet gives, whatever its fields. */
  lemma DataParses(c: Common, v: Variant, parentOffset: nat, tick: Byte, bit6: bool, bit7: bool, size: nat, body: Bytes)
    requires CommonOk(c) && GoodVariant(v) && !IsCode(v)
    requires parentOffset < Exp256(2) && size < Exp256(2) && tick < 0x40
    ensures ParseKind(DataPacket(c, VariantByte(v), parentOffset, FlagsByte(tick, bit6, bit7), size, body)) ==
            if size > 0x58 + |body| then Unparseable(PayloadInvalid)
            else if c.fecSetIndex > c.index || size > 1203
            then Shred(Fallback(c, Sized(body, size), bit6, bit7, 0x58 + |body|))
            else Shred(DataShred(c.slot, c.index, c.version, c.fecSetIndex, parentOffset, Sized(body, size), bit6,
                                 bit6 && bit7, v, 0x58 + |body|))
  {
    hide LittleEndian, LittleEndianBytes, Exp256, CommonBytes, ClassifyVariant, VariantByte, FlagsByte, Sized,
      DataPayload;
    var k, flags := VariantByte(v), FlagsByte(tick, bit6, bit7);
    VariantRoundTrip(v);
    FlagsRead(tick, bit6, bit7);
    DataFields(c, k, parentOffset, flags, size, body);
    var rest := LittleEndianBytes(parentOffset, 2) + [flags] + LittleEndianBytes(size, 2) + body;
    CommonFields(c, k, rest);
    var raw := DataPacket(c, k, parentOffset, flags, size, body);
    assert raw == CommonBytes(c, k) + rest;
    if size <= |raw| {
      SizedPayload(raw, body, size);
    }
  }

  lemma TwoBytesHold()
    ensures Exp256(2) == 0x1_0000
  {
    assert Exp256(2) == 256 * (256 * Exp256(0));
  }

  /** A data packet whose set starts at or below it parses to the fields it was written from;
      padding and Merkle data after the payload are left out. */
  lemma DataPacketRoundTrip(c: Common, v: Variant, parentOffset: nat, tick: Byte, bit6: bool, bit7: bool,
                            payload: Bytes, rest: Bytes)
    requires CommonOk(c) && GoodVariant(v) && !IsCode(v) && c.fecSetIndex <= c.index
    requires parentOffset < Exp256(2) && 0x58 + |payload| <= 1203 && tick < 0x40
    ensures ParseKind(DataPacket(c, VariantByte(v), parentOffset, FlagsByte(tick, bit6, bit7), 0x58 + |payload|,
                                 payload + rest))
         == Shred(DataShred(c.slot, c.index, c.version, c.fecSetIndex, parentOffset, payload, bit6, bit6 && bit7, v,
                            0x58 + |payload| + |rest|))
  {
    hide LittleEndianBytes, CommonBytes, VariantByte, FlagsByte, ParseKind;
    TwoBytesHold();
    DataParses(c, v, parentOffset, tick, bit6, bit7, 0x58 + |payload|, payload + rest);
    assert (payload + rest)[..|payload|] == payload;
  }

  /** A packet of an unknown variant is read as a data packet without a set. */
  lemma UnknownParses(c: Common, kind: Byte, parentOffset: nat, tick: Byte, bit6: bool, bit7: bool, size: nat,
                      body: Bytes)
    requires CommonOk(c) && forall v :: GoodVariant(v) ==> VariantByte(v) != kind
    requires parentOffset < Exp256(2) && size < Exp256(2) && tick < 0x40
    ensures ParseKind(DataPacket(c, kind, parentOffset, FlagsByte(tick, bit6, bit7), size, body)) ==
            if size > 0x58 + |body| then Unparseable(UnknownVariant)
            else Shred(Fallback(c, Sized(body, size), bit6, bit7, 0x58 + |body|))
  {
    hide LittleEndian, LittleEndianBytes, Exp256, CommonBytes, ClassifyVariant, VariantByte, FlagsByte, Sized,
      DataPayload;
    var flags := FlagsByte(tick, bit6, bit7);
    if ClassifyVariant(kind).Known? {
      KnownIsGood(kind);
    }
    FlagsRead(tick, bit6, bit7);
    DataFields(c, kind, parentOffset, flags, size, body);
    var rest := LittleEndianBytes(parentOffset, 2) + [flags] + LittleEndianBytes(size, 2) + body;
    CommonFields(c, kind, rest);
    var raw := DataPacket(c, kind, parentOffset, flags, size, body);
    assert raw == CommonBytes(c, kind) + rest;
    if size <= |raw| {
      SizedPayload(raw, body, size);
    }
  }

  // ---------------------------------------------------------------------------
  // Every packet is of this form

  /** The fields at the front of a packet. */
  function CommonOf(raw: Bytes): Common
    requires |raw| >= 0x53
  {
    Common(raw[..0x40], LittleEndian(raw, 0x41, 8), LittleEndian(raw, 0x49, 4), LittleEndian(raw, 0x4D, 2),
           LittleEndian(raw, 0x4F, 4))
  }

  lemma {:induction false} CommonPrints(raw: Bytes)
    requires |raw| >= 0x53
    ensures CommonOk(CommonOf(raw)) && CommonBytes(CommonOf(raw), raw[0x40]) == raw[..0x53]
  {
    hide LittleEndian, LittleEndianBytes, Exp256;
    FieldBytes(raw, 0x41, 8);
    FieldBytes(raw, 0x49, 4);
    FieldBytes(raw, 0x4D, 2);
    FieldBytes(raw, 0x4F, 4);
  }

  /** A packet long enough for a code header is a code packet of some fields. */
  lemma {:induction false} EveryCodePacket(raw: Bytes)
    requires |raw| >= 0x59
    ensures CommonOk(CommonOf(raw))
    ensures raw == CodePacket(CommonOf(raw), raw[0x40], LittleEndian(raw, 0x53, 2), LittleEndian(raw, 0x55, 2),
                              LittleEndian(raw, 0x57, 2), raw[0x59..])
    ensures LittleEndian(raw, 0x53, 2) < Exp256(2) && LittleEndian(raw, 0x55, 2) < Exp256(2)
    ensures LittleEndian(raw, 0x57, 2) < Exp256(2)
  {
    hide LittleEndian, LittleEndianBytes, Exp256, CommonBytes, CommonOf;
    CommonPrints(raw);
    FieldBytes(raw, 0x53, 2);
    FieldBytes(raw, 0x55, 2);
    FieldBytes(raw, 0x57, 2);
  }

  lemma EveryFlagsByte(flags: Byte)
    ensures flags & 0x3F < 0x40 && flags == FlagsByte(flags & 0x3F, flags & 0x40 != 0, flags & 0x80 != 0)
  {}

  /** A packet long enough for a data header is a data packet of some fields. */
  lemma {:induction false} EveryDataPacket(raw: Bytes)
    requires |raw| >= 0x58
    ensures CommonOk(CommonOf(raw))
    ensures var flags := raw[0x55];
            && flags & 0x3F < 0x40
            && raw == DataPacket(CommonOf(raw), raw[0x40], LittleEndian(raw, 0x53, 2),
                                 FlagsByte(flags & 0x3F, flags & 0x40 != 0, flags & 0x80 != 0),
                                 LittleEndian(raw, 0x56, 2), raw[0x58..])
    ensures LittleEndian(raw, 0x53, 2) < Exp256(2) && LittleEndian(raw, 0x56, 2) < Exp256(2)
  {
    hide LittleEndian, LittleEndianBytes, Exp256, CommonBytes, CommonOf, FlagsByte;
    EveryFlagsByte(raw[0x55]);
    CommonPrints(raw);
    FieldBytes(raw, 0x53, 2);
    FieldBytes(raw, 0x56, 2);
  }

  /** Parsing loses nothing of a code packet but the signature and the Merkle data: written
      again, the shred is the packet that was parsed. */
  lemma {:induction false} CodeShredPrints(raw: Bytes, signature: Bytes)
    requires ParseKind(raw).Shred? && ParseKind(raw).shred.CodeShred? && signature == raw[..0x40]
    ensures var s := ParseKind(raw).shred;
            var c := Common(signature, s.slot, s.index, s.version, s.fecSetIndex);
            && CommonOk(c) && GoodVariant(s.variant) && IsCode(s.variant)
            && s.coded == raw[..|raw| - MerkleSuffix(s.variant)]
            && raw == CodePacket(c, VariantByte(s.variant), s.numData, s.numCoding, s.position, raw[0x59..])
  {
    hide LittleEndian, LittleEndianBytes, Exp256, CommonBytes, CodePacket, VariantByte, GoodVariant, MerkleSuffix;
    KnownIsGood(raw[0x40]);
    EveryCodePacket(raw);
  }
}
