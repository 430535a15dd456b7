/** Byte-level readers and writers of the Solana wire format used by decoder.go.
    A Go sub-slice b[pos:] is the pair (b, pos); `next` is the absolute end. */
module Wire {
  import Galois

  type Byte = Galois.Byte
  type Bytes = seq<Byte>

  /** Outcome of reading one item: all of it, not enough bytes yet, or an error. */
  datatype Parsed<+T> = Complete(next: nat, value: T) | Incomplete | Malformed {
    predicate IsFailure() {
      !Complete?
    }

    function PropagateFailure<U>(): Parsed<U>
      requires IsFailure()
    {
      if Incomplete? then Incomplete else Malformed
    }

    function Extract(): (nat, T)
      requires !IsFailure()
    {
      (next, value)
    }
  }

  // ---------------------------------------------------------------------------
  // Bytes and integers

  function Value(b: Byte): (v: int)
    ensures 0 <= v < 256
  {
    Galois.Index(b)
  }

  function ByteOf(v: int): Byte
    requires 0 <= v < 256
  {
    Galois.FromIndex(v)
  }

  lemma ValueOfByte(v: int)
    requires 0 <= v < 256
    ensures Value(ByteOf(v)) == v
  {
    Galois.IndexRoundTrip(v);
  }

  /** Little-endian integer in the `n` bytes at `pos`. */
  function LittleEndian(b: Bytes, pos: nat, n: nat): (v: nat)
    requires pos + n <= |b|
    decreases n
  {
    if n == 0 then 0 else Value(b[pos]) + 256 * LittleEndian(b, pos + 1, n - 1)
  }

  function LittleEndianBytes(v: nat, n: nat): (b: Bytes)
    ensures |b| == n
  {
    if n == 0 then [] else [ByteOf(v % 256)] + LittleEndianBytes(v / 256, n - 1)
  }

  ghost function Exp256(n: nat): nat {
    if n == 0 then 1 else 256 * Exp256(n - 1)
  }

  // ---------------------------------------------------------------------------
  // Readers

  /** decodeCompactU16: one to three bytes of seven bits, the last at most two bits.
      A value that can never be valid reads as missing input. */
  function CompactU16(b: Bytes, pos: nat): Parsed<nat> {
    if pos >= |b| then Incomplete
    else
      var b0 := Value(b[pos]);
      if b0 < 0x80 then Complete(pos + 1, b0)
      else if pos + 1 >= |b| then Incomplete
      else
        var b1 := Value(b[pos + 1]);
        if b1 < 0x80 then Complete(pos + 2, (b0 - 0x80) + b1 * 0x80)
        else if pos + 2 >= |b| then Incomplete
        else
          var b2 := Value(b[pos + 2]);
          if b2 > 3 then Incomplete
          else Complete(pos + 3, (b0 - 0x80) + (b1 - 0x80) * 0x80 + b2 * 0x4000)
  }

  /** encodeCompactU16, for a non-negative argument. */
  function CompactU16Bytes(v: nat): (b: Bytes)
    ensures 1 <= |b| <= 3
  {
    if v < 0x80 then [ByteOf(v)]
    else if v < 0x4000 then [ByteOf(v % 0x80 + 0x80), ByteOf(v / 0x80)]
    else [ByteOf(v % 0x80 + 0x80), ByteOf((v / 0x80) % 0x80 + 0x80), ByteOf((v / 0x4000) % 0x100)]
  }

  function Take(b: Bytes, pos: nat, n: nat): Parsed<Bytes> {
    if pos + n > |b| then Incomplete else Complete(pos + n, b[pos..pos + n])
  }

  function OneByte(b: Bytes, pos: nat): Parsed<Byte> {
    if pos + 1 > |b| then Incomplete else Complete(pos + 1, b[pos])
  }

  /** A compact-u16 length followed by that many bytes. */
  function ShortVec(b: Bytes, pos: nat): Parsed<Bytes> {
    var (p, n) :- CompactU16(b, pos);
    Take(b, p, n)
  }

  /** `n` consecutive items of `size` bytes, available all at once or not at all. */
  function Chunks(b: Bytes, pos: nat, n: nat, size: nat): Parsed<seq<Bytes>> {
    if pos + n * size > |b| then Incomplete
    else Complete(pos + n * size, SplitChunks(b, pos, n, size))
  }

  /** There is room for `n` items of `size` bytes. */
  predicate Room(b: Bytes, pos: nat, n: nat, size: nat) {
    pos + n * size <= |b|
  }

  lemma RoomForOne(b: Bytes, pos: nat, n: nat, size: nat)
    requires Room(b, pos, n, size) && n > 0
    ensures pos + size <= |b| && Room(b, pos + size, n - 1, size)
  {
    assert n * size == size + (n - 1) * size;
  }

  function SplitChunks(b: Bytes, pos: nat, n: nat, size: nat): (r: seq<Bytes>)
    requires Room(b, pos, n, size)
    ensures |r| == n
    decreases n
  {
    if n == 0 then []
    else
      RoomForOne(b, pos, n, size);
      [b[pos..pos + size]] + SplitChunks(b, pos + size, n - 1, size)
  }

  /** `n` items read one after the other. */
  function Many<T>(read: (Bytes, nat) -> Parsed<T>, b: Bytes, pos: nat, n: nat): Parsed<seq<T>>
    decreases n
  {
    if n == 0 then Complete(pos, [])
    else
      var (p, x) :- read(b, pos);
      var (q, xs) :- Many(read, b, p, n - 1);
      Complete(q, [x] + xs)
  }

  /** A read continued after `done` items. */
  function After<T>(done: seq<T>, r: Parsed<seq<T>>): Parsed<seq<T>> {
    if r.Complete? then Complete(r.next, done + r.value) else r
  }

  // ---------------------------------------------------------------------------
  // Reading looks only at the bytes it consumes

  /** `r'` is `r` read at an offset in a longer sequence: results and errors agree, and
      an unfinished read stays unfinished if nothing was appended (`whole`). */
  ghost predicate Embeds<T>(r: Parsed<T>, r': Parsed<T>, shift: nat, whole: bool) {
    && CompleteEmbeds(r, r', shift, whole)
    && (r.Malformed? ==> r' == r)
  }

  /** The same, except that appended bytes may cure an error. */
  ghost predicate CompleteEmbeds<T>(r: Parsed<T>, r': Parsed<T>, shift: nat, whole: bool) {
    && (r.Complete? ==> r' == Complete(r.next + shift, r.value))
    && (whole && !r.Complete? ==> r' == r)
  }

  ghost function Around(pre: Bytes, b: Bytes, rest: Bytes): Bytes {
    pre + b + rest
  }

  lemma AroundAt(pre: Bytes, b: Bytes, rest: Bytes, pos: nat, n: nat)
    requires pos + n <= |b|
    ensures |Around(pre, b, rest)| == |pre| + |b| + |rest|
    ensures Around(pre, b, rest)[|pre| + pos..|pre| + pos + n] == b[pos..pos + n]
    ensures n > 0 ==> Around(pre, b, rest)[|pre| + pos] == b[pos]
  {
    var all := Around(pre, b, rest);
    forall k | pos <= k < pos + n ensures all[|pre| + k] == b[k] {
      assert (pre + b)[|pre| + k] == b[k];
    }
  }

  lemma {:induction false} LittleEndianEmbeds(pre: Bytes, b: Bytes, rest: Bytes, pos: nat, n: nat)
    requires pos + n <= |b|
    ensures LittleEndian(Around(pre, b, rest), |pre| + pos, n) == LittleEndian(b, pos, n)
    decreases n
  {
    if n != 0 {
      AroundAt(pre, b, rest, pos, 1);
      LittleEndianEmbeds(pre, b, rest, pos + 1, n - 1);
    }
  }

  lemma CompactU16Embeds(pre: Bytes, b: Bytes, rest: Bytes, pos: nat)
    ensures Embeds(CompactU16(b, pos), CompactU16(Around(pre, b, rest), |pre| + pos), |pre|, rest == [])
    ensures CompactU16(b, pos) != Malformed
    ensures CompactU16(b, pos).Complete? ==> pos < CompactU16(b, pos).next <= |b|
  {
    hide Value;
    forall k | 0 <= k < |b| ensures Around(pre, b, rest)[|pre| + k] == b[k] {
      AroundAt(pre, b, rest, k, 1);
    }
  }

  lemma TakeEmbeds(pre: Bytes, b: Bytes, rest: Bytes, pos: nat, n: nat)
    ensures Embeds(Take(b, pos, n), Take(Around(pre, b, rest), |pre| + pos, n), |pre|, rest == [])
  {
    if pos + n <= |b| {
      AroundAt(pre, b, rest, pos, n);
    }
  }

  lemma OneByteEmbeds(pre: Bytes, b: Bytes, rest: Bytes, pos: nat)
    ensures Embeds(OneByte(b, pos), OneByte(Around(pre, b, rest), |pre| + pos), |pre|, rest == [])
  {
    if pos + 1 <= |b| {
      AroundAt(pre, b, rest, pos, 1);
    }
  }

  lemma ShortVecEmbeds(pre: Bytes, b: Bytes, rest: Bytes, pos: nat)
    ensures Embeds(ShortVec(b, pos), ShortVec(Around(pre, b, rest), |pre| + pos), |pre|, rest == [])
    ensures ShortVec(b, pos).Complete? ==> pos < ShortVec(b, pos).next <= |b|
    ensures ShortVec(b, pos) != Malformed
  {
    hide CompactU16, Around;
    CompactU16Embeds(pre, b, rest, pos);
    if CompactU16(b, pos).Complete? {
      var (p, n) := CompactU16(b, pos).Extract();
      TakeEmbeds(pre, b, rest, p, n);
    }
  }

  lemma {:induction false} SplitChunksEmbeds(pre: Bytes, b: Bytes, rest: Bytes, pos: nat, n: nat, size: nat)
    requires pos + n * size <= |b|
    ensures |pre| + pos + n * size <= |Around(pre, b, rest)|
    ensures SplitChunks(Around(pre, b, rest), |pre| + pos, n, size) == SplitChunks(b, pos, n, size)
    decreases n
  {
    if n != 0 {
      assert n * size == size + (n - 1) * size;
      AroundAt(pre, b, rest, pos, size);
      SplitChunksEmbeds(pre, b, rest, pos + size, n - 1, size);
    }
  }

  lemma ChunksEmbeds(pre: Bytes, b: Bytes, rest: Bytes, pos: nat, n: nat, size: nat)
    ensures Embeds(Chunks(b, pos, n, size), Chunks(Around(pre, b, rest), |pre| + pos, n, size), |pre|, rest == [])
  {
    if pos + n * size <= |b| {
      SplitChunksEmbeds(pre, b, rest, pos, n, size);
    }
  }

  lemma {:induction false} ManyEmbeds<T>(read: (Bytes, nat) -> Parsed<T>, pre: Bytes, b: Bytes, rest: Bytes, pos: nat,
                                         n: nat)
    requires forall p: nat :: Embeds(read(b, p), read(Around(pre, b, rest), |pre| + p), |pre|, rest == [])
    ensures Embeds(Many(read, b, pos, n), Many(read, Around(pre, b, rest), |pre| + pos, n), |pre|, rest == [])
    decreases n
  {
    hide Around;
    if n != 0 && read(b, pos).Complete? {
      ManyEmbeds(read, pre, b, rest, read(b, pos).next, n - 1);
    }
  }

  lemma {:induction false} ManyBounds<T>(read: (Bytes, nat) -> Parsed<T>, b: Bytes, pos: nat, n: nat, size: nat)
    requires pos <= |b|
    requires forall p: nat :: p <= |b| && read(b, p).Complete? ==> p + size <= read(b, p).next <= |b|
    ensures Many(read, b, pos, n).Complete? ==>
              pos + n * size <= Many(read, b, pos, n).next <= |b| && |Many(read, b, pos, n).value| == n
    decreases n
  {
    if n != 0 && read(b, pos).Complete? {
      ManyBounds(read, b, read(b, pos).next, n - 1, size);
      assert n * size == size + (n - 1) * size;
    }
  }

  // ---------------------------------------------------------------------------
  // Round trips

  lemma {:induction false} LittleEndianRoundTrip(v: nat, n: nat)
    requires v < Exp256(n)
    ensures LittleEndian(LittleEndianBytes(v, n), 0, n) == v
  {
    if n != 0 {
      hide Value, ByteOf;
      var tail := LittleEndianBytes(v / 256, n - 1);
      ValueOfByte(v % 256);
      LittleEndianRoundTrip(v / 256, n - 1);
      LittleEndianEmbeds([ByteOf(v % 256)], tail, [], 0, n - 1);
      assert Around([ByteOf(v % 256)], tail, []) == LittleEndianBytes(v, n);
    }
  }

  /** A field is the bytes of the number it reads as. */
  lemma {:induction false} FieldBytes(raw: Bytes, pos: nat, n: nat)
    requires pos + n <= |raw|
    ensures LittleEndian(raw, pos, n) < Exp256(n)
    ensures LittleEndianBytes(LittleEndian(raw, pos, n), n) == raw[pos..pos + n]
    decreases n
  {
    hide Value, ByteOf;
    if n != 0 {
      FieldBytes(raw, pos + 1, n - 1);
      ByteOfValue(raw[pos]);
      var tail := LittleEndian(raw, pos + 1, n - 1);
      assert LittleEndian(raw, pos, n) % 256 == Value(raw[pos]) && LittleEndian(raw, pos, n) / 256 == tail;
      assert raw[pos..pos + n] == [raw[pos]] + raw[pos + 1..pos + n];
    }
  }

  lemma ByteOfValue(b: Byte)
    ensures 0 <= Value(b) < 256 && ByteOf(Value(b)) == b
  {
    Galois.FromIndexRoundTrip(b);
  }

  /** The compact encoding round-trips exactly on the 16-bit values. */
  lemma CompactU16RoundTrip(v: nat)
    ensures CompactU16(CompactU16Bytes(v), 0) == Complete(|CompactU16Bytes(v)|, v) <==> v < 0x10000
  {
    hide Value, ByteOf;
    if v < 0x80 {
      ValueOfByte(v);
    } else if v < 0x4000 {
      ValueOfByte(v % 0x80 + 0x80);
      ValueOfByte(v / 0x80);
    } else {
      ThreeDigits(v);
      ValueOfByte(v % 0x80 + 0x80);
      ValueOfByte((v / 0x80) % 0x80 + 0x80);
      ValueOfByte((v / 0x4000) % 0x100);
    }
  }

  lemma ThreeDigits(v: nat)
    ensures v == v % 0x80 + (v / 0x80) % 0x80 * 0x80 + v / 0x4000 * 0x4000
    ensures v / 0x4000 < 4 <==> v < 0x10000
    ensures (v / 0x4000) % 0x100 == v / 0x4000 || v >= 0x10000
    ensures v >= 0x10000 ==> (v / 0x4000) % 0x100 > 3 || (v / 0x4000) % 0x100 < v / 0x4000
  {
    assert v / 0x4000 == (v / 0x80) / 0x80;
  }
}
