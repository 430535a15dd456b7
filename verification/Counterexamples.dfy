/** Runs of the accumulator (accumulator.go) that end otherwise than one might expect. */
module Counterexamples {
  import Galois
  import opened Wire
  import opened Transactions
  import opened Batches
  import opened Streaming
  import opened Serialization
  import opened Shreds
  import opened ReedSolomon
  import opened ErasureCoding
  import opened CodecCache
  import opened Recovery
  import opened Pool
  import opened SlotState
  import opened Filling
  import opened Epochs
  import opened Accumulators

  // ---------------------------------------------------------------------------
  // Pushes that change nothing else

  /** A data shred that lies ahead of the cursor while nothing can be recovered or finished. */
  method PushQuietly(acc: Accumulator, index: nat, shred: Pending, now: int, t: Galois.Tables, pool: BufferPool,
                     cache: ReedSolomonCache)
    requires acc.Valid() && acc.Clean() && acc.Settled() && Custody(acc.pending, pool.freelist)
    requires t.Valid() && cache.Valid() && shred.source.Pooled? && shred.Intact()
    requires index < MAX_U32 && shred.source.handle.idx !in Holdings(acc.pending, pool.freelist)
    requires Fresh(acc.pending, acc.batchStart, index)
    requires acc.streamingCursor !in acc.pending && acc.streamingCursor != index
    requires Quiet(ArrivedView(acc.Now(), index, shred, now), now, acc.stuckTimeout)
    modifies acc, acc.decoder, pool, cache
    ensures acc.Valid() && acc.Clean() && acc.Settled() && cache.Valid() && Custody(acc.pending, pool.freelist)
    ensures Holdings(acc.pending, pool.freelist)
            == old(Holdings(acc.pending, pool.freelist)) + {shred.source.handle.idx}
    ensures acc.Now() == ArrivedView(old(acc.Now()), index, shred, now)
  {
    hide Accumulator.Valid, Galois.Tables.Valid, ReedSolomonCache.Valid, Custody, Holdings, AllIntact, StreamedFront,
      NoBoundaryBefore, Settles, SetsKept, Served, NoneComplete, Accumulator.Emitted, StreamRun, NewOnes,
      FirstSignatures, Flushes, FillFrame, Grown;
    ghost var arrived := ArrivedView(acc.Now(), index, shred, now);
    StreamsNothing(arrived);
    var handle := shred.source.handle;
    var out;
    ghost var mid, views;
    out, mid, views := acc.PushData(index, shred.fecSetIndex, handle, shred.payloadEnd, shred.batchComplete, false, now,
                                    t, pool, cache);
    assert shred == Pending(Pooled(handle), shred.payloadEnd, shred.batchComplete, shred.fecSetIndex);
    assert mid == arrived;
    QuietFlush(views, mid, acc.Now(), now, acc.stuckTimeout);
  }

  lemma StreamsNothing(v: View)
    requires v.cursor !in v.pending
    ensures StreamedView(v) == v
  {
    NewOnesNothing(v.sigs);
    assert v.current + [] == v.current && v.sigs + {} == v.sigs;
  }

  /** A code shred while nothing can be recovered or finished with it. */
  method RecordQuietly(acc: Accumulator, f: nat, coded: Bytes, now: int, t: Galois.Tables, pool: BufferPool,
                       cache: ReedSolomonCache)
    returns (ghost enrolled: map<nat, FecSet>)
    requires acc.Valid() && acc.Clean() && acc.Settled() && Custody(acc.pending, pool.freelist)
    requires t.Valid() && cache.Valid() && f + 2 <= MAX_U32 && FecSetsOk(acc.fecSets)
    modifies acc, acc.decoder, pool, cache
    ensures acc.Valid() && acc.Clean() && acc.Settled() && cache.Valid() && Custody(acc.pending, pool.freelist)
    ensures Holdings(acc.pending, pool.freelist) == old(Holdings(acc.pending, pool.freelist))
    ensures f in enrolled && enrolled[f] == Recorded(old(acc.fecSets), f, 2, 1, 0, coded, CODE_VARIANT)
    ensures forall k :: k in enrolled && k != f ==> k in old(acc.fecSets) && enrolled[k] == old(acc.fecSets)[k]
    ensures |enrolled| == |old(acc.fecSets)| +
              if f in old(acc.fecSets) || (|old(acc.fecSets)| >= acc.maxFecSets && HasBelow(old(acc.fecSets), f)) then 0
              else 1
    ensures Quiet(old(acc.Now()).(sets := enrolled), now, acc.stuckTimeout) ==>
              acc.Now() == old(acc.Now()).(sets := enrolled)
  {
    hide Accumulator.Valid, Galois.Tables.Valid, ReedSolomonCache.Valid, Custody, Holdings, AllIntact, StreamedFront,
      NoBoundaryBefore, Settles, SetsKept, Served, NoneComplete, Accumulator.Emitted, Flushes, FillFrame, Grown,
      FecSet.Ok, StreamedView, Recorded;
    ghost var v0 := acc.Now();
    var out;
    ghost var mid, views;
    out, enrolled, mid, views := acc.PushCode(f, 2, 1, 0, coded, CODE_VARIANT, now, t, pool, cache);
    if Quiet(v0.(sets := enrolled), now, acc.stuckTimeout) {
      assert mid == v0.(sets := enrolled);
      QuietFlush(views, mid, acc.Now(), now, acc.stuckTimeout);
    }
  }

  // ---------------------------------------------------------------------------
  // The number of FEC sets

  const CODE_VARIANT := Variant(CodeMerkle, 0, false)

  /** Sets of two data shreds of which only one code shred has come. */
  ghost predicate Lonely(sets: map<nat, FecSet>) {
    forall f :: f in sets ==> sets[f].numData == 2 && |sets[f].code| == 1
  }

  lemma LonelyIsQuiet(v: View, now: int, timeout: int)
    requires Lonely(v.sets) && v.pending == map[] && v.boundaries == map[]
    ensures Quiet(v, now, timeout)
  {
    forall f | f in v.sets ensures !Fillable(v.sets, v.pending, f) {
      assert (set i | i in v.pending && InSet(v.pending, f, 2, i)) == {};
    }
  }

  lemma FirstCodeShred(sets: map<nat, FecSet>, f: nat, coded: Bytes)
    requires FecSetsOk(sets) && f !in sets
    ensures var s := Recorded(sets, f, 2, 1, 0, coded, CODE_VARIANT); s.numData == 2 && |s.code| == 1
  {
    var none: map<nat, Bytes> := map[];
    assert none[0 := coded].Keys == {0};
  }

  /** Code shreds of ever smaller sets, pushed to a new accumulator, add up to any number of
      sets, whatever the cap is. */
  method CapIsNoBound(maxFecSets: int, count: nat) returns (acc: Accumulator)
    requires count < MAX_U32
    ensures acc.Valid() && acc.maxFecSets == maxFecSets && |acc.fecSets| == count
  {
    hide Accumulator.Valid, Galois.Tables.Valid, ReedSolomonCache.Valid, Recorded, Quiet, Custody, Holdings, AllIntact,
      StreamedFront, NoBoundaryBefore, FecSetsOk, Lonely;
    var t := Galois.InitTables();
    var cache := new ReedSolomonCache();
    var pool := new BufferPool(1);
    acc := new Accumulator(maxFecSets, 50, false);
    NothingKept(pool.freelist);
    NoneIsLonely();
    for i := 0 to count
      invariant fresh(acc) && fresh(acc.decoder) && fresh(pool) && fresh(cache) && cache.Valid()
      invariant acc.Valid() && acc.Clean() && acc.Settled() && Custody(acc.pending, pool.freelist)
      invariant acc.maxFecSets == maxFecSets && acc.pending == map[] && acc.boundaries == map[] && Lonely(acc.fecSets)
      invariant |acc.fecSets| == i && forall f :: f in acc.fecSets ==> count - i <= f
    {
      ghost var v0 := acc.Now();
      var f := count - i - 1;
      SetsAreOk(acc);
      ghost var enrolled := RecordQuietly(acc, f, [], 0, t, pool, cache);
      StillLonely(v0.sets, enrolled, f);
      LonelyIsQuiet(v0.(sets := enrolled), 0, acc.stuckTimeout);
    }
  }

  lemma NoneIsLonely()
    ensures Lonely(map[])
  {}

  lemma StillLonely(sets: map<nat, FecSet>, enrolled: map<nat, FecSet>, f: nat)
    requires Lonely(sets) && FecSetsOk(sets) && f !in sets && f in enrolled
    requires enrolled[f] == Recorded(sets, f, 2, 1, 0, [], CODE_VARIANT)
    requires forall k :: k in enrolled && k != f ==> k in sets && enrolled[k] == sets[k]
    ensures Lonely(enrolled)
  {
    hide Recorded, FecSetsOk;
    FirstCodeShred(sets, f, []);
  }

  lemma NothingKept(freelist: seq<nat>)
    requires NoDuplicates(freelist)
    ensures Custody(map[], freelist) && Holdings(map[], freelist) == Elements(freelist)
  {
    NothingOwned();
  }

  // ---------------------------------------------------------------------------
  // Packets of FEC set 0

  /** A data packet whose header declares `size` bytes; whatever follows the header is zero. */
  function Packet(index: Byte, flags: Byte, size: Byte): (raw: Bytes)
    ensures |raw| == DATA_SHRED_PAYLOAD_LEN
  {
    seq(64, _ => 0)
    + [0x90, 0, 0, 0, 0, 0, 0, 0, 0, index, 0, 0, 0, 0, 0, 0, 0, 0, 0, 0, 0, flags, size, 0]
    + seq(DATA_SHRED_PAYLOAD_LEN - DATA_HEADER_SIZE, _ => 0)
  }

  const SHARD_SIZE := 1107

  /** The region of a packet that the code protects. */
  function Region(raw: Bytes): (shard: Bytes)
    requires |raw| == DATA_SHRED_PAYLOAD_LEN
    ensures |shard| == SHARD_SIZE
  {
    raw[SIGNATURE_SIZE..SIGNATURE_SIZE + SHARD_SIZE]
  }

  /** Index 0 holds a batch without entries, index 1 ends that batch. */
  const FIRST := Packet(0, 0, 0x60)
  const SECOND := Packet(1, 0x40, 0x58)

  lemma PacketBytes(index: Byte, flags: Byte, size: Byte)
    ensures var raw := Packet(index, flags, size);
            && raw[0x40] == 0x90 && raw[0x49] == index && raw[0x4A] == raw[0x4B] == raw[0x4C] == 0
            && raw[0x4F] == raw[0x50] == raw[0x51] == raw[0x52] == 0
            && raw[0x55] == flags && raw[0x56] == size && raw[0x57] == 0
            && (forall k :: DATA_HEADER_SIZE <= k < |raw| ==> raw[k] == 0)
  {}

  lemma FourBytes(raw: Bytes, pos: nat)
    requires pos + 4 <= |raw| && raw[pos + 1] == raw[pos + 2] == raw[pos + 3] == 0
    ensures LittleEndian(raw, pos, 4) == Value(raw[pos])
  {
    ByteValues();
    assert LittleEndian(raw, pos + 4, 0) == 0;
    assert LittleEndian(raw, pos + 3, 1) == 0;
    assert LittleEndian(raw, pos + 2, 2) == 0;
    assert LittleEndian(raw, pos + 1, 3) == 0;
  }

  lemma TwoBytes(raw: Bytes, pos: nat)
    requires pos + 2 <= |raw| && raw[pos + 1] == 0
    ensures LittleEndian(raw, pos, 2) == Value(raw[pos])
  {
    ByteValues();
    assert LittleEndian(raw, pos + 2, 0) == 0;
    assert LittleEndian(raw, pos + 1, 1) == 0;
  }

  lemma ByteValues()
    ensures Value(0) == 0 && Value(0x58) == 0x58 && Value(0x60) == 0x60 && Value(0x90) == 0x90 && ByteOf(0) == 0
  {}

  lemma PacketFields(index: Byte, flags: Byte, size: Byte)
    ensures var raw := Packet(index, flags, size);
            && LittleEndian(raw, 0x49, 4) == Value(index) && LittleEndian(raw, 0x4F, 4) == 0
            && SizeField(raw) == Value(size)
  {
    hide Packet, LittleEndian;
    var raw := Packet(index, flags, size);
    PacketBytes(index, flags, size);
    FourBytes(raw, 0x49);
    FourBytes(raw, 0x4F);
    ByteValues();
    TwoBytes(raw, 0x56);
  }

  /** Such a packet parses, and ends a batch if flagged 0x40. */
  lemma PacketParses(index: Byte, ends: bool, size: Byte)
    requires Value(size) >= DATA_HEADER_SIZE
    ensures var raw := Packet(index, if ends then 0x40 else 0, size);
            && Storable(raw) && HonestPacket(raw, 0, Region(raw)) && ParseKind(raw).shred.batchComplete == ends
            && ParseKind(raw).shred.payload == raw[DATA_HEADER_SIZE..Value(size)]
  {
    hide Packet, LittleEndian, Value;
    var flags: Byte := if ends then 0x40 else 0;
    PacketBytes(index, flags, size);
    PacketFields(index, flags, size);
    ByteValues();
    Unsigned(index);
    Unsigned(size);
  }

  lemma Unsigned(b: Byte)
    ensures 0 <= Value(b) < 256
  {}

  /** A shard buffer with the given contents. */
  method Shard(bytes: Bytes) returns (a: array<Byte>)
    ensures fresh(a) && a[..] == bytes
  {
    a := new Byte[|bytes|];
    for i := 0 to |bytes|
      invariant a[..i] == bytes[..i]
    {
      a[i] := bytes[i];
    }
    assert bytes[..|bytes|] == bytes && a[..a.Length] == a[..];
  }

  /** The parity shard of a codeword that starts with two data shards. */
  method Parity(t: Galois.Tables, d0: Bytes, d1: Bytes) returns (parity: Bytes, ghost c: Codec)
    requires t.Valid() && |d0| == |d1| == SHARD_SIZE
    ensures |parity| == SHARD_SIZE && CodecFor(c, (2, 1)) && Codeword(c, [d0, d1, parity], SHARD_SIZE)
  {
    hide Galois.Tables.Valid, Codec.Valid, Codeword;
    var build := NewReedSolomon(t, 2, 1);
    c := build.codec;
    var a0 := Shard(d0);
    var a1 := Shard(d1);
    var a2 := Shard(seq(SHARD_SIZE, _ => 0));
    var shards := [a0, a1, a2];
    var r, coded := Encode(t, build.codec, shards);
    assert Contents(coded)[..2] == [d0, d1];
    parity := coded[2][..];
    assert Contents(coded) == [d0, d1, parity];
    ParityLength(c, d0, d1, parity);
  }

  lemma ParityLength(c: Codec, d0: Bytes, d1: Bytes, parity: Bytes)
    requires CodecFor(c, (2, 1)) && Codeword(c, [d0, d1, parity], SHARD_SIZE)
    ensures |parity| == SHARD_SIZE
  {
    hide Codec.Valid;
    assert [d0, d1, parity][2] == parity;
  }

  /** A code packet without its Merkle data. */
  function CodePacket(parity: Bytes): Bytes {
    seq(CODE_HEADER_SIZE, _ => 0) + parity
  }

  /** FEC set 0: two data shreds, one code shred. */
  function SmallSet(parity: Bytes): FecSet {
    FecSet(2, 1, SHARD_SIZE, Of(CODE_VARIANT), map[0 := CodePacket(parity)])
  }

  lemma SmallSetRecorded(parity: Bytes)
    ensures Recorded(map[], 0, 2, 1, 0, CodePacket(parity), CODE_VARIANT) == SmallSet(parity)
    ensures SmallSet(parity).Ok() && SmallSet(parity).Decodable()
  {
    hide CodePacket;
    var none: map<nat, Bytes> := map[];
    assert none[0 := CodePacket(parity)] == map[0 := CodePacket(parity)];
  }

  /** The parity belongs to the two packets. */
  ghost predicate Coded(parity: Bytes, c: Codec) {
    && |parity| == SHARD_SIZE && CodecFor(c, (2, 1))
    && Codeword(c, [Region(FIRST), Region(SECOND), parity], SHARD_SIZE)
  }

  /** Of set 0, index 0 has come and index 1 has not. */
  ghost predicate HalfCame(p: PendingMap) {
    0 in p && 1 !in p && p[0].Buffer() == FIRST && p[0].fecSetIndex == 0
  }

  lemma SlicesFit(parity: Bytes)
    requires |parity| == SHARD_SIZE
    ensures CodeShardSlice(CodePacket(parity), CODE_VARIANT) == Slice(parity)
    ensures DataShardSlice(FIRST, VariantAsData(CODE_VARIANT)) == Slice(Region(FIRST))
  {
    hide Packet;
    var raw := CodePacket(parity);
    assert raw[CODE_HEADER_SIZE..CODE_HEADER_SIZE + SHARD_SIZE] == parity;
  }

  lemma SmallSetHonest(p: PendingMap, parity: Bytes, c: Codec)
    requires HalfCame(p) && Coded(parity, c)
    ensures SmallSet(parity).Ok() && SmallSet(parity).Decodable()
    ensures HonestSet(SmallSet(parity), p, 0, c, [Region(FIRST), Region(SECOND), parity], [FIRST, SECOND])
  {
    hide Packet, Region, CodecFor, Codeword, HonestPacket, CodeShardSlice, DataShardSlice, CodePacket, Storable,
      ParseKind;
    ByteValues();
    PacketParses(0, false, 0x60);
    PacketParses(1, true, 0x58);
    SlicesFit(parity);
  }

  lemma SmallSetRipe(p: PendingMap, parity: Bytes)
    requires HalfCame(p) && |parity| == SHARD_SIZE
    ensures Fillable(map[0 := SmallSet(parity)], p, 0) && Ripe(SmallSet(parity), p, 0)
  {
    hide Packet, Region, CodeShardSlice, DataShardSlice, CodePacket;
    var fec := SmallSet(parity);
    SlicesFit(parity);
    assert InSet(p, 0, 2, 0);
    assert 0 in set i | i in p && InSet(p, 0, 2, i);
    forall refs: seq<DataRef> | RefsFrom(p, 0, 2, refs) ensures Enough(fec, refs) {
      var k :| 0 <= k < |refs| && refs[k].pos == 0;
      assert RefOk(p, 0, 2, refs[k]);
      assert Usable(fec, refs, 0, Region(FIRST));
      assert Usable(fec, refs, 2, parity);
      var have := Available(fec, refs);
      assert have[0] && have[2];
      assert CountTrue(have, 1) == 1 && CountTrue(have, 3) >= 2;
    }
  }

  /** What the recovery brings: index 1, which ends a batch. */
  lemma BoundaryRevealed(p: PendingMap, q: PendingMap, parity: Bytes, c: Codec)
    requires HalfCame(p) && Coded(parity, c)
    requires AddedFrom(p, q, map[0 := SmallSet(parity)]) && Served(map[0 := SmallSet(parity)], p, q, 0, 0)
    ensures 1 in q && SameAsReceived(q[1], SECOND) && q[1].batchComplete
  {
    hide Packet, Region, CodecFor, Codeword, HonestSet, CodePacket, ParseKind, Ripe, Fillable;
    var fec := SmallSet(parity);
    SmallSetRipe(p, parity);
    SmallSetHonest(p, parity, c);
    ByteValues();
    PacketParses(1, true, 0x58);
    var packets := [FIRST, SECOND];
    assert RecoversAll(fec, p, q, 0, 0);
    assert Storable(packets[1]);
    assert Regained(p, q, 0, 1, packets[1]);
  }

  // ---------------------------------------------------------------------------
  // The push of index 0

  /** What the first packet carries: a batch without entries. */
  lemma EmptyBatch(rest: Bytes)
    ensures BatchBytes([]) == seq(8, _ => 0) && BatchAt(BatchBytes([]) + rest, 0) == Batch(8, [])
    ensures !Fails(BatchBytes([])) && Yielded(BatchBytes([])) == []
  {
    hide BatchAt, Fails, Yielded;
    ZeroBytes(8);
    var b := BatchBytes([]);
    assert ManyBytes(EntryBytes, []) == [];
    assert b == LittleEndianBytes(0, 8);
    BatchRoundTrip([], rest);
    BatchRoundTrip([], []);
    assert b + [] == b;
    BatchDoesNotFail(b);
    StreamingAgreesWithBatch(b);
  }

  lemma {:induction false} ZeroBytes(n: nat)
    ensures LittleEndianBytes(0, n) == seq(n, _ => 0)
  {
    ByteValues();
    if n != 0 {
      ZeroBytes(n - 1);
    }
  }

  /** Index 0 as it is stored. */
  function FirstShred(b: nat): Pending {
    Pending(Pooled(Handle(b, FIRST)), 0x60, false, 0)
  }

  lemma FirstPayload(b: nat)
    ensures FirstShred(b).PayloadBytes() == Payload(BatchBytes([]))
  {
    hide Packet;
    PacketBytes(0, 0, 0x60);
    EmptyBatch([]);
    assert FIRST[DATA_HEADER_SIZE..0x60] == seq(8, _ => 0);
  }

  /** Streaming passes index 0, stops before index 1 and yields nothing. */
  lemma FirstStreams(v: View, b: nat)
    requires v.cursor == 0 && v.buffer == [] && v.current == [] && v.sigs == {}
    requires 0 in v.pending && v.pending[0] == FirstShred(b) && 1 !in v.pending
    ensures StreamedView(v) == v.(cursor := 1, buffer := BatchBytes([]))
  {
    hide StreamRun, BatchBytes, Packet;
    FirstRun(v.pending, b);
    NewOnesNothing({});
  }

  lemma FirstRun(p: PendingMap, b: nat)
    requires 0 in p && p[0] == FirstShred(b) && 1 !in p
    ensures StreamRun(p, [], 0) == Streamed(1, BatchBytes([]), [], false)
  {
    hide Fails, Yielded, Packet, BatchBytes, Beyond, Pending.PayloadBytes;
    FirstPayload(b);
    EmptyBatch([]);
    var longer := BatchBytes([]);
    assert PayloadAt(p, 0) == longer;
    assert [] + longer == longer;
    NothingBeyond(longer);
    assert StreamRun(p, longer, 1) == Streamed(1, longer, [], false);
  }

  lemma NothingBeyond(b: Bytes)
    requires Yielded(b) == []
    ensures Beyond([], b) == []
  {}

  /** Pushing index 0 streams past it, so nothing is recovered before the flush. */
  method ArriveFirst(acc: Accumulator, b: nat, t: Galois.Tables, pool: BufferPool, cache: ReedSolomonCache)
    returns (ghost views: seq<View>)
    requires acc.Valid() && acc.Clean() && acc.Settled() && Custody(acc.pending, pool.freelist)
    requires t.Valid() && cache.Valid() && b !in Holdings(acc.pending, pool.freelist)
    requires var v := acc.Now();
             && v.cursor == 0 && v.start == 0 && v.buffer == [] && v.current == [] && v.sigs == {}
             && 0 !in v.pending && 1 !in v.pending
    modifies acc, acc.decoder, pool, cache
    ensures acc.Valid() && acc.Clean() && acc.Settled()
    ensures Flushes(views, ArrivedView(old(acc.Now()), 0, FirstShred(b), 1).(cursor := 1, buffer := BatchBytes([])),
                    acc.Now(), 1, acc.stuckTimeout)
  {
    hide Accumulator.Valid, Galois.Tables.Valid, ReedSolomonCache.Valid, Custody, Holdings, AllIntact, StreamedFront,
      NoBoundaryBefore, Settles, SetsKept, Served, NoneComplete, Accumulator.Emitted, StreamRun, NewOnes, StreamedView,
      FirstSignatures, Flushes, FillFrame, Grown, Packet, BatchBytes, NoneFillable;
    ghost var arrived := ArrivedView(acc.Now(), 0, FirstShred(b), 1);
    FirstStreams(arrived, b);
    var out;
    ghost var mid;
    out, mid, views := acc.PushData(0, 0, Handle(b, FIRST), 0x60, false, false, 1, t, pool, cache);
    assert mid == StreamedView(arrived);
  }

  /** The state before index 0 comes: index 3, which ends a batch, the code shred, and whatever
      else there is from index 2 on. */
  ghost predicate Waiting(v: View, parity: Bytes) {
    && v == NEW_VIEW.(pending := v.pending, boundaries := map[3 := 0], sets := v.sets)
    && 3 in v.pending && (forall i :: i in v.pending ==> 2 <= i <= 3)
    && (v.sets == map[] || v.sets == map[0 := SmallSet(parity)])
  }

  lemma WaitingIsQuiet(v: View, parity: Bytes)
    requires Waiting(v, parity)
    ensures Quiet(v, 0, 50)
  {
    hide CodePacket;
    forall f | f in v.sets ensures !Fillable(v.sets, v.pending, f) {
      assert (set i | i in v.pending && InSet(v.pending, f, 2, i)) == {};
      assert |SmallSet(parity).code| == 1 by {
        assert SmallSet(parity).code.Keys == {0};
      }
    }
    assert 0 !in v.pending;
    assert IsLeast(v.boundaries, 3) && !AllPending(v.pending, v.start, 3 + 1);
  }

  /** A data shred from index 2 on that is not part of set 0. */
  function LaterShred(idx: nat, bytes: Bytes, payloadEnd: nat, ends: bool): Pending {
    Pending(Pooled(Handle(idx, bytes)), payloadEnd, ends, 2)
  }

  // ---------------------------------------------------------------------------
  // A complete batch left behind

  /** With index 2 missing the first batch cannot be finished, whatever is recovered. */
  lemma GapStopsRound(v: View, w: View, parity: Bytes)
    requires v.sets == map[0 := SmallSet(parity)] && v.boundaries == map[3 := 0] && v.start == 0 && 2 !in v.pending
    ensures !Round(v, w, 1, 50)
  {
    hide CodePacket, Served, AllServed, NewOnes, Content, From, NoneFillable, BoundariesAgree, OnlyUnpooledAdded;
  }

  lemma SetZeroReaches(parity: Bytes)
    ensures 0 in Reaching(map[0 := SmallSet(parity)], 0, 3)
  {
    hide CodePacket;
  }

  lemma FlushLeavesBatch(views: seq<View>, v: View, w: View, parity: Bytes, c: Codec)
    requires Flushes(views, v, w, 1, 50) && HalfCame(v.pending) && Coded(parity, c) && 2 !in v.pending
    requires v.sets == map[0 := SmallSet(parity)] && v.boundaries == map[3 := 0] && v.start == 0
    ensures w.start == 0 && 0 in w.pending && 1 in w.pending && w.pending[1].batchComplete
  {
    hide Packet, Region, CodecFor, Codeword, SmallSet, Served, Round, NoneFillable, HalfCame, Coded;
    if |views| > 1 {
      GapStopsRound(views[0], views[1], parity);
    }
    assert IsLeast(v.boundaries, 3);
    assert Waits(v, w, 3, 1, 50);
    FlushServes(v, w.pending, parity);
    BoundaryRevealed(v.pending, w.pending, parity, c);
    KeepsFirst(v.pending, w.pending);
  }

  lemma FlushServes(v: View, p: PendingMap, parity: Bytes)
    requires FillsFor(v, p, 3) && HalfCame(v.pending) && v.sets == map[0 := SmallSet(parity)] && v.start == 0
    ensures AddedFrom(v.pending, p, v.sets) && Served(v.sets, v.pending, p, 0, 0)
  {
    hide Packet, SmallSet, Served, OnlyUnpooledAdded;
    assert !AllPending(v.pending, 0, 3 + 1);
    SetZeroReaches(parity);
  }

  lemma KeepsFirst(p: PendingMap, q: PendingMap)
    requires HalfCame(p) && OnlyUnpooledAdded(p, q)
    ensures 0 in q && q[0] == p[0]
  {}

  /** Index 3, the end of a batch, and one code shred of set 0 are pushed to a new accumulator,
      then index 0. Streaming passes index 0, so its set is not recovered before the flush. The
      flush looks at boundary 3, recovers index 1, which ends a batch, and stops since index 2
      is missing: the batch 0..1 is complete and stays. */
  method BatchLeftBehind() returns (acc: Accumulator)
    ensures acc.Valid() && acc.Clean() && acc.Settled() && acc.batchStart == 0
    ensures 1 in acc.boundaries && AllPending(acc.pending, 0, 2)
    ensures !NoneComplete(acc.pending, acc.boundaries, acc.batchStart)
  {
    hide Packet, Region, Galois.Tables.Valid, ReedSolomonCache.Valid, Accumulator.Valid, Accumulator.Emitted, Codeword,
      CodecFor, CodePacket, SmallSet, AllIntact, StreamedFront, NoBoundaryBefore, Custody, Holdings, Flushes, HalfCame,
      BatchBytes, Waiting;
    var t := Galois.InitTables();
    var cache := new ReedSolomonCache();
    var pool, a, b, _ := ThreeBuffers();
    var parity;
    ghost var c;
    parity, c := Parity(t, Region(FIRST), Region(SECOND));
    acc := StartWithLast(a, parity, t, pool, cache);
    RecordSet(acc, parity, t, pool, cache);
    ghost var v2 := acc.Now();
    WaitingState(v2, parity);
    ghost var views := ArriveFirst(acc, b, t, pool, cache);
    ghost var mid := ArrivedView(v2, 0, FirstShred(b), 1).(cursor := 1, buffer := BatchBytes([]));
    HalfWay(mid.pending, b);
    FlushLeavesBatch(views, mid, acc.Now(), parity, c);
    acc.FlagsAreBoundaries();
    assert AllPending(acc.pending, 0, 1 + 1);
  }

  /** A buffer whose payload is `payload`. */
  function Holding(payload: Bytes): Bytes {
    seq(DATA_HEADER_SIZE, _ => 0) + payload
  }

  lemma ShredFits(idx: nat, payload: Bytes, ends: bool)
    ensures LaterShred(idx, Holding(payload), DATA_HEADER_SIZE + |payload|, ends).Intact()
    ensures LaterShred(idx, Holding(payload), DATA_HEADER_SIZE + |payload|, ends).PayloadBytes() == Payload(payload)
  {
    assert Holding(payload)[DATA_HEADER_SIZE..DATA_HEADER_SIZE + |payload|] == payload;
  }

  /** Index 3, the end of a batch, is the first shred of a new accumulator. */
  method StartWithLast(a: nat, parity: Bytes, t: Galois.Tables, pool: BufferPool, cache: ReedSolomonCache)
    returns (acc: Accumulator)
    requires t.Valid() && cache.Valid() && pool.Valid() && a !in pool.Free()
    modifies pool, cache
    ensures fresh(acc) && fresh(acc.decoder) && acc.stuckTimeout == 50 && acc.fecSets == map[]
    ensures acc.Valid() && acc.Clean() && acc.Settled() && cache.Valid() && Custody(acc.pending, pool.freelist)
    ensures Holdings(acc.pending, pool.freelist) == old(pool.Free()) + {a}
    ensures acc.Now() == ArrivedView(NEW_VIEW, 3, LaterShred(a, Holding([]), DATA_HEADER_SIZE, true), 0)
    ensures Waiting(acc.Now(), parity)
  {
    hide Accumulator.Valid, Galois.Tables.Valid, ReedSolomonCache.Valid, Custody, Holdings, AllIntact, StreamedFront,
      NoBoundaryBefore, Quiet, Holding, Waiting, Accumulator.Emitted;
    acc := new Accumulator(32, 50, false);
    NothingKept(pool.freelist);
    ShredFits(a, [], true);
    LastArrives(ArrivedView(NEW_VIEW, 3, LaterShred(a, Holding([]), DATA_HEADER_SIZE, true), 0), a, parity);
    assert acc.Now() == NEW_VIEW;
    PushQuietly(acc, 3, LaterShred(a, Holding([]), DATA_HEADER_SIZE, true), 0, t, pool, cache);
  }

  lemma LastArrives(v: View, a: nat, parity: Bytes)
    requires v == ArrivedView(NEW_VIEW, 3, LaterShred(a, Holding([]), DATA_HEADER_SIZE, true), 0)
    ensures Waiting(v, parity) && Quiet(v, 0, 50)
  {
    hide Holding, SmallSet;
    WaitingIsQuiet(v, parity);
  }

  lemma WaitingState(v: View, parity: Bytes)
    requires Waiting(v, parity)
    ensures v == NEW_VIEW.(pending := v.pending, boundaries := map[3 := 0], sets := v.sets)
    ensures 3 in v.pending && forall i :: i in v.pending ==> 2 <= i <= 3
  {}

  lemma HalfWay(p: PendingMap, b: nat)
    requires 0 in p && 1 !in p && p[0] == FirstShred(b)
    ensures HalfCame(p)
  {
    hide Packet;
  }

  /** The code shred of set 0. */
  method RecordSet(acc: Accumulator, parity: Bytes, t: Galois.Tables, pool: BufferPool, cache: ReedSolomonCache)
    requires acc.Valid() && acc.Clean() && acc.Settled() && Custody(acc.pending, pool.freelist)
    requires t.Valid() && cache.Valid() && acc.stuckTimeout == 50 && Waiting(acc.Now(), parity) && acc.fecSets == map[]
    modifies acc, acc.decoder, pool, cache
    ensures acc.Valid() && acc.Clean() && acc.Settled() && cache.Valid() && Custody(acc.pending, pool.freelist)
    ensures Holdings(acc.pending, pool.freelist) == old(Holdings(acc.pending, pool.freelist))
    ensures acc.Now() == old(acc.Now()).(sets := map[0 := SmallSet(parity)]) && Waiting(acc.Now(), parity)
  {
    hide Accumulator.Valid, Galois.Tables.Valid, ReedSolomonCache.Valid, Custody, Holdings, AllIntact, StreamedFront,
      NoBoundaryBefore, SmallSet, CodePacket, Quiet, Recorded, FecSetsOk;
    SetsAreOk(acc);
    ghost var v0 := acc.Now();
    ghost var enrolled := RecordQuietly(acc, 0, CodePacket(parity), 0, t, pool, cache);
    SmallSetRecorded(parity);
    assert enrolled == map[0 := SmallSet(parity)];
    WaitingIsQuiet(v0.(sets := enrolled), parity);
  }

  /** A pool and three buffers taken from it. */
  method ThreeBuffers() returns (pool: BufferPool, a: nat, b: nat, c: nat)
    ensures fresh(pool) && pool.Valid() && a !in pool.Free() && b !in pool.Free() && c !in pool.Free()
    ensures a != b && b != c && a != c
  {
    pool := new BufferPool(3);
    assert 0 in pool.Free() && 1 in pool.Free() && 2 in pool.Free();
    var x := pool.Acquire();
    assert 0 in pool.Free() + {x.idx} && 1 in pool.Free() + {x.idx} && 2 in pool.Free() + {x.idx};
    var y := pool.Acquire();
    assert forall i :: 0 <= i < 3 ==> i in pool.Free() + {y.idx} + {x.idx};
    var z := pool.Acquire();
    a, b, c := x.idx, y.idx, z.idx;
  }

  // ---------------------------------------------------------------------------
  // A complete batch lost

  /** Once index 1 is recovered nothing is missing, so the round does not wait. */
  lemma NoGapNoWait(v: View, w: View, parity: Bytes, c: Codec)
    requires HalfCame(v.pending) && Coded(parity, c) && 2 in v.pending && 3 in v.pending
    requires v.sets == map[0 := SmallSet(parity)] && v.boundaries == map[3 := 0] && v.start == 0
    ensures !Waits(v, w, 3, 1, 50)
  {
    hide Packet, Region, CodecFor, Codeword, SmallSet, Served, NoneFillable, HalfCame, Coded, FillFrame, Timed;
    if Waits(v, w, 3, 1, 50) {
      WholeAfter(v, w.pending, parity, c);
    }
  }

  lemma WholeAfter(v: View, p: PendingMap, parity: Bytes, c: Codec)
    requires FillsFor(v, p, 3) && HalfCame(v.pending) && Coded(parity, c) && 2 in v.pending && 3 in v.pending
    requires v.sets == map[0 := SmallSet(parity)] && v.start == 0
    ensures AllPending(p, 0, 3 + 1) && 0 in p && 1 in p && 2 in p && 3 in p
    ensures p[0] == v.pending[0] && p[2] == v.pending[2] && p[3] == v.pending[3]
    ensures SameAsReceived(p[1], SECOND)
  {
    hide Packet, Region, CodecFor, Codeword, SmallSet, Served, HalfCame, Coded, SameAsReceived;
    FlushServes(v, p, parity);
    BoundaryRevealed(v.pending, p, parity, c);
    KeepsFirst(v.pending, p);
  }

  /** Nothing but set 0 can add shreds, and that only below index 2. */
  lemma NothingBehind(p: PendingMap, q: PendingMap, parity: Bytes)
    requires AddedFrom(p, q, map[0 := SmallSet(parity)]) && forall i :: i in p ==> i <= 3
    ensures From(q, 4) == map[]
  {
    hide CodePacket;
  }

  /** The first batch in the range decodes, to nothing. */
  lemma FirstBatchEmpty(p: PendingMap, b: nat)
    requires 0 in p && p[0] == FirstShred(b)
    ensures BatchAt(Combined(p, 0, 2), 0) == Batch(8, [])
  {
    hide Packet, BatchBytes, BatchAt, Pending.PayloadBytes;
    FirstPayload(b);
    OneCombined(p, 0);
    assert PayloadAt(p, 0) == BatchBytes([]);
    assert Combined(p, 0, 2) == Combined(p, 0, 1) + PayloadAt(p, 1);
    EmptyBatch(PayloadAt(p, 1));
  }

  /** The round finishes 0..3 as one batch and emits nothing. */
  lemma RoundMerges(v: View, w: View, b: nat, parity: Bytes, c: Codec)
    requires Round(v, w, 1, 50) && Coded(parity, c) && HalfCame(v.pending)
    requires v.pending.Keys == {0, 2, 3} && v.pending[0] == FirstShred(b)
    requires v.sets == map[0 := SmallSet(parity)] && v.boundaries == map[3 := 0] && v.start == 0 && v.log == []
    requires v.current == [] && v.sigs == {}
    ensures w.boundaries == map[] && |w.log| == 1 && w.current == [] && w.start == 4
    ensures var e := w.log[0];
            && e.start == 0 && e.end == 3 && e.emitted == [] && AllPending(e.pending, 0, 4)
            && e.pending[2] == v.pending[2] && e.pending[3] == v.pending[3]
  {
    hide Packet, Region, CodecFor, Codeword, SmallSet, HalfCame, Coded, NewOnes, From, SameAsReceived, FillsFor,
      AllPending, Round, Closes, BatchAt, Combined;
    RoundParts(v, w);
    var e := w.log[0];
    WholeAfter(v, e.pending, parity, c);
    RoundAdds(v, e.pending);
    NothingBehind(v.pending, e.pending, parity);
    FirstBatchEmpty(e.pending, b);
    OnlyFirstIsEmitted(v, w, 3, 1, 50, 1);
    NewOnesNothing({});
  }

  lemma RoundParts(v: View, w: View)
    requires Round(v, w, 1, 50) && v.boundaries == map[3 := 0] && v.start == 0 && v.log == []
    ensures |w.log| == 1 && w.log[0].start == 0 && w.log[0].end == 3 && Closes(v, w, 3, 1, 50)
    ensures FillsFor(v, w.log[0].pending, 3) && w.pending == From(w.log[0].pending, 4)
    ensures w.current == [] && w.start == 4
    ensures BoundariesAgree(w.pending, w.boundaries)
  {
    hide FillsFor, AllPending, NewOnes, Content, Timed, From, BoundariesAgree, NoneFillable;
  }

  lemma RoundAdds(v: View, p: PendingMap)
    requires FillsFor(v, p, 3)
    ensures AddedFrom(v.pending, p, v.sets)
  {}

  lemma FlushMerges(views: seq<View>, v: View, w: View, b: nat, parity: Bytes, c: Codec)
    requires Flushes(views, v, w, 1, 50) && Coded(parity, c) && HalfCame(v.pending)
    requires v.pending.Keys == {0, 2, 3} && v.pending[0] == FirstShred(b)
    requires v.sets == map[0 := SmallSet(parity)] && v.boundaries == map[3 := 0] && v.start == 0 && v.log == []
    requires v.current == [] && v.sigs == {}
    ensures |w.log| == 1 && w.current == [] && w.start == 4
    ensures var e := w.log[0];
            && e.start == 0 && e.end == 3 && e.emitted == [] && AllPending(e.pending, 0, 4)
            && e.pending[2] == v.pending[2] && e.pending[3] == v.pending[3]
  {
    hide Packet, Region, CodecFor, Codeword, SmallSet, HalfCame, Coded, Round, Waits, AllPending;
    assert IsLeast(v.boundaries, 3);
    if |views| == 1 {
      NoGapNoWait(v, w, parity, c);
    }
    assert Round(views[0], views[0 + 1], 1, 50);
    RoundMerges(views[0], views[1], b, parity, c);
    if |views| > 2 {
      assert Round(views[1], views[1 + 1], 1, 50);
      NoMoreRounds(views[1], views[2]);
    }
  }

  lemma NoMoreRounds(v: View, w: View)
    requires v.boundaries == map[]
    ensures !Round(v, w, 1, 50)
  {
    hide Closes;
  }

  /** What the second batch decodes to. */
  lemma SecondBatch(p: PendingMap, x: Transaction, prefix: Bytes, c: nat, a: nat)
    requires GoodTransaction(x) && |prefix| == 40 && 2 in p && 3 in p
    requires var bytes := BatchBytes([Entry(prefix, [x])]);
             p[2] == LaterShred(c, Holding(bytes), DATA_HEADER_SIZE + |bytes|, false)
    requires p[3] == LaterShred(a, Holding([]), DATA_HEADER_SIZE, true)
    ensures BatchAt(Combined(p, 2, 4), 0).Batch? && BatchAt(Combined(p, 2, 4), 0).txs == [x]
  {
    hide Holding, BatchAt, BatchBytes, GoodTransaction, Exp256, Pending.PayloadBytes;
    var xs := [Entry(prefix, [x])];
    var bytes := BatchBytes(xs);
    ShredFits(c, bytes, false);
    ShredFits(a, [], true);
    OneCombined(p, 2);
    assert Combined(p, 2, 4) == Combined(p, 2, 3) + PayloadAt(p, 3);
    assert bytes + [] == bytes;
    SmallExp();
    BatchRoundTrip(xs, []);
    assert xs[1..] == [];
    assert AllTransactions(xs) == [x] + AllTransactions(xs[1..]);
  }

  lemma SmallExp()
    ensures 1 < Exp256(8)
  {
    assert Exp256(1) == 256 * Exp256(0);
    ExpGrows(1, 8);
  }

  lemma {:induction false} ExpGrows(m: nat, n: nat)
    requires m <= n
    ensures Exp256(m) <= Exp256(n)
    decreases n
  {
    if m < n {
      ExpGrows(m, n - 1);
    }
  }

  /** Index 2 carries a batch of one transaction `x`, index 3 ends it; both are pushed to a new
      accumulator, then one code shred of set 0, then index 0. The flush looks at boundary 3 and
      recovers index 1, which ends the batch before. Now 0..3 is complete and is finished as one
      batch: `x` is never emitted, although the shreds 2..3 decode to it. */
  method BatchLost(x: Transaction, prefix: Bytes) returns (acc: Accumulator)
    requires GoodTransaction(x) && |prefix| == 40
    ensures acc.Valid() && acc.Clean() && acc.Settled() && acc.batchStart == 4 && acc.Emitted() == []
    ensures |acc.log| == 1 && acc.log[0].start == 0 && acc.log[0].end == 3 && acc.log[0].emitted == []
    ensures BatchAt(Combined(acc.log[0].pending, 2, 4), 0).Batch?
    ensures BatchAt(Combined(acc.log[0].pending, 2, 4), 0).txs == [x]
  {
    hide Packet, Region, Galois.Tables.Valid, ReedSolomonCache.Valid, Accumulator.Valid, Codeword, CodecFor, CodePacket,
      SmallSet, AllIntact, StreamedFront, NoBoundaryBefore, Custody, Holdings, Flushes, HalfCame, BatchBytes, Waiting,
      Holding, BatchAt, GoodTransaction, Quiet;
    var t := Galois.InitTables();
    var cache := new ReedSolomonCache();
    var pool, a, b, d := ThreeBuffers();
    var parity;
    ghost var c;
    parity, c := Parity(t, Region(FIRST), Region(SECOND));
    acc := StartWithLast(a, parity, t, pool, cache);
    ghost var v1 := acc.Now();
    var bytes := BatchBytes([Entry(prefix, [x])]);
    var shred := LaterShred(d, Holding(bytes), DATA_HEADER_SIZE + |bytes|, false);
    ShredFits(d, bytes, false);
    SecondArrives(v1, shred, parity);
    PushQuietly(acc, 2, shred, 0, t, pool, cache);
    RecordSet(acc, parity, t, pool, cache);
    ghost var v2 := acc.Now();
    ghost var views := ArriveFirst(acc, b, t, pool, cache);
    ghost var mid := ArrivedView(v2, 0, FirstShred(b), 1).(cursor := 1, buffer := BatchBytes([]));
    HalfWay(mid.pending, b);
    FlushMerges(views, mid, acc.Now(), b, parity, c);
    SecondBatch(acc.log[0].pending, x, prefix, d, a);
    OnlyEpoch(acc.log);
  }

  lemma SecondArrives(v: View, shred: Pending, parity: Bytes)
    requires Waiting(v, parity) && !shred.batchComplete && v.pending.Keys == {3} && v.sets == map[]
    ensures Waiting(ArrivedView(v, 2, shred, 0), parity) && Quiet(ArrivedView(v, 2, shred, 0), 0, 50)
  {
    hide SmallSet;
    WaitingIsQuiet(ArrivedView(v, 2, shred, 0), parity);
  }

  lemma OnlyEpoch(log: seq<Epoch>)
    requires |log| == 1 && log[0].emitted == []
    ensures LogTransactions(log) + [] == []
  {
    assert log[..0] == [];
  }

  /** There are such transactions. */
  const SAMPLE := Transaction(
    [seq(64, _ => 1)], Message(false, Body([1, 0, 0], [], seq(32, _ => 0), []), []))

  lemma SampleIsGood()
    ensures GoodTransaction(SAMPLE) && |SAMPLE.signatures| == 1
  {
    ByteValues();
    assert Value(1) == 1;
  }
}
