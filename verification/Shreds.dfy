/** Shred variants and header parsing (variant.go, parser.go) and the byte regions that
    erasure coding protects (accumulator.go). */
module Shreds {
  import opened Wire

  const SIGNATURE_SIZE := 64
  const DATA_HEADER_SIZE := 0x58
  const CODE_HEADER_SIZE := 0x59
  const MAX_DATA_SHRED_SIZE := 1203
  const DATA_SHRED_PAYLOAD_LEN := 1203
  const CODE_SHRED_PAYLOAD_LEN := 1228

  // ---------------------------------------------------------------------------
  // Variants

  datatype Kind = DataLegacy | CodeLegacy | DataMerkle | CodeMerkle
  datatype Variant = Variant(kind: Kind, proofSize: nat, resigned: bool)
  datatype Classified = Known(variant: Variant) | Unknown

  function ClassifyVariant(b: Byte): (c: Classified)
    ensures c.Known? ==> c.variant.proofSize < 16
  {
    var v := Value(b);
    if v == 0xA5 then Known(Variant(DataLegacy, 0, false))
    else if v == 0x5A then Known(Variant(CodeLegacy, 0, false))
    else if 0x60 <= v <= 0x6F then Known(Variant(CodeMerkle, v - 0x60, false))
    else if 0x70 <= v <= 0x7F then Known(Variant(CodeMerkle, v - 0x70, true))
    else if 0x90 <= v <= 0x9F then Known(Variant(DataMerkle, v - 0x90, false))
    else if 0xB0 <= v <= 0xBF then Known(Variant(DataMerkle, v - 0xB0, true))
    else Unknown
  }

  function MerkleSuffix(v: Variant): nat {
    if v.kind == DataLegacy || v.kind == CodeLegacy then 0
    else v.proofSize * 20 + 32 + if v.resigned then 64 else 0
  }

  // ---------------------------------------------------------------------------
  // Parsing

  datatype Shred =
    | DataShred(slot: nat, index: nat, version: nat, fecSetIndex: nat, parentOffset: nat, payload: Bytes,
                batchComplete: bool, lastInSlot: bool, variant: Variant, rawLen: nat)
    | CodeShred(slot: nat, index: nat, version: nat, fecSetIndex: nat, numData: nat, numCoding: nat,
                position: nat, coded: Bytes, variant: Variant)

  datatype ParseError = TooShort | UnknownVariant | PayloadInvalid
  datatype ParseResult = Shred(shred: Shred) | Unparseable(error: ParseError)

  function SizeField(raw: Bytes): nat
    requires |raw| >= DATA_HEADER_SIZE
  {
    LittleEndian(raw, 0x56, 2)
  }

  /** The bytes between the header and the declared size; none below the header. */
  function DataPayload(raw: Bytes, size: nat): Bytes
    requires size <= |raw|
  {
    if size > DATA_HEADER_SIZE then raw[DATA_HEADER_SIZE..size] else []
  }

  /** parseDataLegacyFallback; the FEC set index is the shred's own index. */
  function ParseDataFallback(raw: Bytes, slot: nat, index: nat): ParseResult
    requires |raw| >= DATA_HEADER_SIZE
  {
    var flags, size := raw[0x55], SizeField(raw);
    if size > |raw| then Unparseable(PayloadInvalid)
    else Shred(DataShred(slot, index, 0, index, 0, DataPayload(raw, size),
                         flags & 0x40 != 0, flags & 0xC0 == 0xC0, Variant(DataLegacy, 0, false), |raw|))
  }

  function ParseData(raw: Bytes, slot: nat, index: nat, version: nat, fecSetIndex: nat, variant: Variant): ParseResult
    requires |raw| >= DATA_HEADER_SIZE
  {
    var flags, size := raw[0x55], SizeField(raw);
    if fecSetIndex > index || size > MAX_DATA_SHRED_SIZE then ParseDataFallback(raw, slot, index)
    else if size > |raw| then Unparseable(PayloadInvalid)
    else Shred(DataShred(slot, index, version, fecSetIndex, LittleEndian(raw, 0x53, 2), DataPayload(raw, size),
                         flags & 0x40 != 0, flags & 0xC0 == 0xC0, variant, |raw|))
  }

  function ParseCode(raw: Bytes, slot: nat, index: nat, version: nat, fecSetIndex: nat, variant: Variant): ParseResult
    requires |raw| >= DATA_HEADER_SIZE
  {
    if |raw| < CODE_HEADER_SIZE then Unparseable(TooShort)
    else
      var numData, numCoding := LittleEndian(raw, 0x53, 2), LittleEndian(raw, 0x55, 2);
      var position := LittleEndian(raw, 0x57, 2);
      if numData == 0 || numCoding == 0 || position >= numCoding || MerkleSuffix(variant) >= |raw|
      then Unparseable(PayloadInvalid)
      else Shred(CodeShred(slot, index, version, fecSetIndex, numData, numCoding, position,
                           raw[..|raw| - MerkleSuffix(variant)], variant))
  }

  /** ParseKind. The bounds checks of the field readers cannot fail past the length test. */
  function ParseKind(raw: Bytes): ParseResult {
    if |raw| < DATA_HEADER_SIZE then Unparseable(TooShort)
    else
      var slot, index := LittleEndian(raw, 0x41, 8), LittleEndian(raw, 0x49, 4);
      var version, fecSetIndex := LittleEndian(raw, 0x4D, 2), LittleEndian(raw, 0x4F, 4);
      match ClassifyVariant(raw[0x40])
      case Known(v) =>
        if v.kind == DataLegacy || v.kind == DataMerkle then ParseData(raw, slot, index, version, fecSetIndex, v)
        else ParseCode(raw, slot, index, version, fecSetIndex, v)
      case Unknown =>
        var r := ParseDataFallback(raw, slot, index);
        if r.Shred? then r else Unparseable(UnknownVariant)
  }

  /** A parsed data shred's payload is the part of its packet right after the header. */
  lemma PayloadBounds(raw: Bytes)
    requires ParseKind(raw).Shred? && ParseKind(raw).shred.DataShred?
    ensures var end := DATA_HEADER_SIZE + |ParseKind(raw).shred.payload|;
            end <= |raw| && ParseKind(raw).shred.payload == raw[DATA_HEADER_SIZE..end]
  {
    hide LittleEndian, ClassifyVariant;
  }

  // ---------------------------------------------------------------------------
  // The protected region of a shred

  /** ShardSize: what remains of a code shred after its headers and Merkle data. */
  function ShardSize(v: Variant): int {
    CODE_SHRED_PAYLOAD_LEN - CODE_HEADER_SIZE - 32 - v.proofSize * 20 - if v.resigned then SIGNATURE_SIZE else 0
  }

  lemma ShardSizeBounds(v: Variant)
    requires v.proofSize < 16
    ensures 743 <= ShardSize(v) <= 1107
  {}

  datatype Slice = Slice(bytes: Bytes) | NoSlice

  /** dataShardSlice: everything after the signature that the code protects. */
  function DataShardSlice(raw: Bytes, v: Variant): Slice
    requires v.proofSize < 16
  {
    ShardSizeBounds(v);
    if v.kind != DataMerkle || SIGNATURE_SIZE + ShardSize(v) > |raw| then NoSlice
    else Slice(raw[SIGNATURE_SIZE..SIGNATURE_SIZE + ShardSize(v)])
  }

  function CodeShardSlice(raw: Bytes, v: Variant): Slice
    requires v.proofSize < 16
  {
    ShardSizeBounds(v);
    if v.kind != CodeMerkle || CODE_HEADER_SIZE + ShardSize(v) > |raw| then NoSlice
    else Slice(raw[CODE_HEADER_SIZE..CODE_HEADER_SIZE + ShardSize(v)])
  }

  function VariantAsData(v: Variant): Variant {
    if v.kind == CodeMerkle then v.(kind := DataMerkle) else v
  }

  /** A data shred rebuilt from its protected region: no signature, no Merkle data. */
  function Rebuilt(shard: Bytes): (raw: Bytes)
    requires |shard| <= DATA_SHRED_PAYLOAD_LEN - SIGNATURE_SIZE
    ensures |raw| == DATA_SHRED_PAYLOAD_LEN == 1203 && raw[64..64 + |shard|] == shard
    ensures forall i :: 0 <= i < 64 || 64 + |shard| <= i < 1203 ==> raw[i] == 0
  {
    seq(SIGNATURE_SIZE, _ => 0) + shard + seq(DATA_SHRED_PAYLOAD_LEN - SIGNATURE_SIZE - |shard|, _ => 0)
  }

  lemma RebuiltRegion(raw: Bytes, size: nat, lo: nat, hi: nat)
    requires SIGNATURE_SIZE + size <= |raw| && size <= DATA_SHRED_PAYLOAD_LEN - SIGNATURE_SIZE
    requires SIGNATURE_SIZE <= lo <= hi <= SIGNATURE_SIZE + size
    ensures Rebuilt(raw[SIGNATURE_SIZE..SIGNATURE_SIZE + size])[lo..hi] == raw[lo..hi]
  {
    var shard := raw[SIGNATURE_SIZE..SIGNATURE_SIZE + size];
    forall k | lo <= k < hi ensures Rebuilt(shard)[k] == raw[k] {
      assert Rebuilt(shard)[k] == shard[k - SIGNATURE_SIZE];
    }
  }

  lemma {:induction false} LittleEndianWithin(a: Bytes, b: Bytes, pos: nat, n: nat)
    requires pos + n <= |a| && pos + n <= |b| && a[pos..pos + n] == b[pos..pos + n]
    ensures LittleEndian(a, pos, n) == LittleEndian(b, pos, n)
    decreases n
  {
    if n != 0 {
      assert a[pos] == a[pos..pos + n][0] && b[pos] == b[pos..pos + n][0];
      assert a[pos + 1..pos + n] == a[pos..pos + n][1..] && b[pos + 1..pos + n] == b[pos..pos + n][1..];
      LittleEndianWithin(a, b, pos + 1, n - 1);
    }
  }

  /** Two packets with the same header bytes have the same header fields. */
  lemma SameHeader(a: Bytes, b: Bytes)
    requires |a| >= DATA_HEADER_SIZE && |b| >= DATA_HEADER_SIZE
    requires a[SIGNATURE_SIZE..DATA_HEADER_SIZE] == b[SIGNATURE_SIZE..DATA_HEADER_SIZE]
    ensures a[0x40] == b[0x40] && a[0x55] == b[0x55] && SizeField(a) == SizeField(b)
    ensures LittleEndian(a, 0x41, 8) == LittleEndian(b, 0x41, 8) && LittleEndian(a, 0x49, 4) == LittleEndian(b, 0x49, 4)
    ensures LittleEndian(a, 0x4D, 2) == LittleEndian(b, 0x4D, 2) && LittleEndian(a, 0x4F, 4) == LittleEndian(b, 0x4F, 4)
    ensures LittleEndian(a, 0x53, 2) == LittleEndian(b, 0x53, 2)
  {
    hide LittleEndian;
    SameField(a, b, 0x40, 1);
    SameField(a, b, 0x55, 1);
    SameField(a, b, 0x41, 8);
    SameField(a, b, 0x49, 4);
    SameField(a, b, 0x4D, 2);
    SameField(a, b, 0x4F, 4);
    SameField(a, b, 0x53, 2);
    SameField(a, b, 0x56, 2);
  }

  lemma SameField(a: Bytes, b: Bytes, pos: nat, n: nat)
    requires |a| >= DATA_HEADER_SIZE && |b| >= DATA_HEADER_SIZE
    requires a[SIGNATURE_SIZE..DATA_HEADER_SIZE] == b[SIGNATURE_SIZE..DATA_HEADER_SIZE]
    requires SIGNATURE_SIZE <= pos && pos + n <= DATA_HEADER_SIZE && n > 0
    ensures LittleEndian(a, pos, n) == LittleEndian(b, pos, n) && a[pos] == b[pos]
  {
    forall k | pos <= k < pos + n ensures a[k] == b[k] {
      assert a[k] == a[SIGNATURE_SIZE..DATA_HEADER_SIZE][k - SIGNATURE_SIZE];
      assert b[k] == b[SIGNATURE_SIZE..DATA_HEADER_SIZE][k - SIGNATURE_SIZE];
    }
    LittleEndianWithin(a, b, pos, n);
  }

  /** A data shred whose declared size lies in the protected region parses the same,
      up to its length, after a rebuild from that region. */
  lemma RebuiltParses(raw: Bytes, size: nat)
    requires DATA_HEADER_SIZE <= SIGNATURE_SIZE + size <= |raw| && size <= 1107
    requires SizeField(raw) <= SIGNATURE_SIZE + size
    requires ParseKind(raw).Shred? && ParseKind(raw).shred.DataShred?
    ensures var rebuilt := Rebuilt(raw[SIGNATURE_SIZE..SIGNATURE_SIZE + size]);
            ParseKind(rebuilt) == Shred(ParseKind(raw).shred.(rawLen := DATA_SHRED_PAYLOAD_LEN))
  {
    hide LittleEndian, ClassifyVariant, Rebuilt, MerkleSuffix;
    var rebuilt := Rebuilt(raw[SIGNATURE_SIZE..SIGNATURE_SIZE + size]);
    RebuiltRegion(raw, size, SIGNATURE_SIZE, DATA_HEADER_SIZE);
    SameHeader(rebuilt, raw);
    if SizeField(raw) > DATA_HEADER_SIZE {
      RebuiltRegion(raw, size, DATA_HEADER_SIZE, SizeField(raw));
    }
  }
}
